/** Small shared vocabulary: optional values, parse results, sums, and the
    few pieces of Rust's string and slice library the solvers rely on
    (`str::split`, `str::trim`, integer `from_str`, sorting by a key). */
module Common {

  datatype Option<T> = None | Some(value: T)

  /** The outcome of a `FromStr` implementation: a value or the (unit) parse error. */
  datatype Result<T> = Ok(value: T) | Err

  // ---------------------------------------------------------------- sums

  function Sum(s: seq<nat>): nat
  {
    if s == [] then 0 else Sum(s[..|s| - 1]) + s[|s| - 1]
  }

  lemma {:induction false} SumAppend(a: seq<nat>, b: seq<nat>)
    ensures Sum(a + b) == Sum(a) + Sum(b)
    decreases |b|
  {
    if b == [] {
      assert a + b == a;
    } else {
      assert (a + b)[..|a + b| - 1] == a + b[..|b| - 1];
      SumAppend(a, b[..|b| - 1]);
    }
  }

  /** Extending a prefix by one term adds that term. */
  lemma SumPrefix(s: seq<nat>, i: nat)
    requires i < |s|
    ensures Sum(s[..i + 1]) == Sum(s[..i]) + s[i]
  {
    assert s[..i + 1][..i] == s[..i];
  }

  /** Adding `x` to one term adds `x` to the sum. */
  lemma {:induction false} SumUpdate(s: seq<nat>, k: nat, x: nat)
    requires k < |s|
    ensures Sum(s[k := s[k] + x]) == Sum(s) + x
    decreases |s|
  {
    var t := s[k := s[k] + x];
    assert t[..|t| - 1] == if k < |s| - 1 then s[..|s| - 1][k := s[k] + x] else s[..|s| - 1];
    if k < |s| - 1 {
      SumUpdate(s[..|s| - 1], k, x);
    }
  }

  /** A sum dominates each of its terms. */
  lemma {:induction false} SumBound(s: seq<nat>, k: nat)
    requires k < |s|
    ensures s[k] <= Sum(s)
    decreases |s|
  {
    if k < |s| - 1 {
      SumBound(s[..|s| - 1], k);
    }
  }

  /** A sum is zero exactly when every term is. */
  lemma {:induction false} SumZero(s: seq<nat>)
    ensures Sum(s) == 0 <==> forall k :: 0 <= k < |s| ==> s[k] == 0
    decreases |s|
  {
    if s != [] {
      SumZero(s[..|s| - 1]);
      if Sum(s) == 0 {
        forall k | 0 <= k < |s| ensures s[k] == 0 {
          SumBound(s, k);
        }
      }
    }
  }

  /** A pointwise smaller sequence has a smaller sum, strictly so when one term is. */
  lemma {:induction false} SumLess(a: seq<nat>, b: seq<nat>, k: nat)
    requires |a| == |b| && forall i :: 0 <= i < |a| ==> a[i] <= b[i]
    requires k < |a| && a[k] < b[k]
    ensures Sum(a) < Sum(b)
    decreases |a|
  {
    var n := |a| - 1;
    if k < n {
      SumLess(a[..n], b[..n], k);
    } else {
      SumLessEq(a[..n], b[..n]);
    }
  }

  lemma {:induction false} SumLessEq(a: seq<nat>, b: seq<nat>)
    requires |a| == |b| && forall i :: 0 <= i < |a| ==> a[i] <= b[i]
    ensures Sum(a) <= Sum(b)
    decreases |a|
  {
    if a != [] {
      SumLessEq(a[..|a| - 1], b[..|b| - 1]);
    }
  }

  /** `f` applied to every element, or `None` as soon as one application fails
      (an iterator `map` whose closure unwraps, panicking on the first failure). */
  function MapAll<A, B>(xs: seq<A>, f: A -> Option<B>): Option<seq<B>>
  {
    if xs == [] then Some([])
    else match MapAll(xs[..|xs| - 1], f)
      case None => None
      case Some(ys) =>
        match f(xs[|xs| - 1])
        case None => None
        case Some(y) => Some(ys + [y])
  }

  lemma {:induction false} MapAllSpec<A, B>(xs: seq<A>, f: A -> Option<B>)
    ensures MapAll(xs, f).Some? <==> forall k :: 0 <= k < |xs| ==> f(xs[k]).Some?
    ensures MapAll(xs, f).Some? ==>
              |MapAll(xs, f).value| == |xs| && forall k :: 0 <= k < |xs| ==> MapAll(xs, f).value[k] == f(xs[k]).value
    decreases |xs|
  {
    if xs != [] {
      MapAllSpec(xs[..|xs| - 1], f);
    }
  }

  lemma MapAllSnoc<A, B>(xs: seq<A>, x: A, f: A -> Option<B>)
    ensures MapAll(xs + [x], f) == match MapAll(xs, f)
                                   case None => None
                                   case Some(ys) => if f(x).Some? then Some(ys + [f(x).value]) else None
  {
    assert (xs + [x])[..|xs|] == xs;
  }

  /** A step of a loop that maps `f` over `xs`: one more success appends its value. */
  lemma MapAllStep<A, B>(xs: seq<A>, k: nat, ys: seq<B>, f: A -> Option<B>)
    requires k < |xs| && MapAll(xs[..k], f).Some? && MapAll(xs[..k], f).value == ys
    requires f(xs[k]).Some?
    ensures MapAll(xs[..k + 1], f).Some? && MapAll(xs[..k + 1], f).value == ys + [f(xs[k]).value]
  {
    assert xs[..k + 1][..k] == xs[..k];
  }

  /** A failure anywhere makes the whole map fail. */
  lemma MapAllFails<A, B>(xs: seq<A>, k: nat, f: A -> Option<B>)
    requires k < |xs| && f(xs[k]).None?
    ensures MapAll(xs, f).None?
  {
    MapAllSpec(xs, f);
  }

  function Product(s: seq<nat>): nat
  {
    if s == [] then 1 else Product(s[..|s| - 1]) * s[|s| - 1]
  }

  /** A product with no zero factor is positive. */
  lemma {:induction false} ProductPositive(s: seq<nat>)
    requires forall k :: 0 <= k < |s| ==> s[k] > 0
    ensures Product(s) > 0
  {
    if s != [] {
      ProductPositive(s[..|s| - 1]);
      MulLe(1, Product(s[..|s| - 1]), s[|s| - 1]);
    }
  }

  /** The smaller of two integers. */
  function Min(a: int, b: int): int { if a < b then a else b }

  /** The larger of two integers. */
  function Max(a: int, b: int): int { if a < b then b else a }

  /** Powers of ten, the place values of decimal numbers. */
  function Pow10(n: nat): (r: nat)
    ensures r >= 1
  {
    if n == 0 then 1 else 10 * Pow10(n - 1)
  }

  lemma {:induction false} Pow10Add(a: nat, b: nat)
    ensures Pow10(a + b) == Pow10(a) * Pow10(b)
  {
    if a > 0 {
      Pow10Add(a - 1, b);
    }
  }

  lemma Pow10Mono(a: nat, b: nat)
    requires a <= b
    ensures Pow10(a) <= Pow10(b)
  {
    Pow10Add(a, b - a);
    MulLe(1, Pow10(b - a), Pow10(a));
  }

  lemma MulLe(a: nat, b: nat, c: nat)
    requires a <= b
    ensures a * c <= b * c
  {
  }

  lemma MulLtCancel(a: nat, b: nat, c: nat)
    requires a * c < b * c
    ensures a < b
  {
  }

  // ------------------------------------------------------------- strings

  predicate IsDigit(c: char) { '0' <= c <= '9' }

  function DigitValue(c: char): (d: nat)
    requires IsDigit(c)
    ensures d < 10
  {
    c as int - '0' as int
  }

  /** The decimal fold `acc * 10 + digit` over a string of digits. */
  function DecimalValue(s: string): nat
    requires forall k :: 0 <= k < |s| ==> IsDigit(s[k])
  {
    if s == [] then 0 else DecimalValue(s[..|s| - 1]) * 10 + DigitValue(s[|s| - 1])
  }

  /** `str::split(sep)`: the pieces between separators, in order, empty pieces kept. */
  function Split(s: string, sep: char): (r: seq<string>)
    ensures |r| >= 1
    ensures forall k :: 0 <= k < |r| ==> sep !in r[k]
  {
    if s == [] then [[]]
    else
      var init := Split(s[..|s| - 1], sep);
      if s[|s| - 1] == sep then init + [[]]
      else init[..|init| - 1] + [init[|init| - 1] + [s[|s| - 1]]]
  }

  function Join(pieces: seq<string>, sep: char): string
    requires |pieces| >= 1
  {
    if |pieces| == 1 then pieces[0]
    else Join(pieces[..|pieces| - 1], sep) + [sep] + pieces[|pieces| - 1]
  }

  /** A trailing separator adds an empty last piece. */
  lemma JoinSnocEmpty(ps: seq<string>, sep: char)
    requires |ps| >= 1
    ensures Join(ps + [[]], sep) == Join(ps, sep) + [sep]
  {
    assert (ps + [[]])[..|ps|] == ps;
  }

  /** Any other character extends the last piece. */
  lemma JoinExtendLast(ps: seq<string>, sep: char, c: char)
    requires |ps| >= 1
    ensures Join(ps[..|ps| - 1] + [ps[|ps| - 1] + [c]], sep) == Join(ps, sep) + [c]
  {
    var q := ps[..|ps| - 1] + [ps[|ps| - 1] + [c]];
    if |ps| > 1 {
      assert q[..|q| - 1] == ps[..|ps| - 1];
    }
  }

  /** Splitting loses nothing: joining the pieces back gives the input. */
  lemma {:induction false} SplitJoin(s: string, sep: char)
    ensures Join(Split(s, sep), sep) == s
    decreases |s|
  {
    if s != [] {
      var t, c := s[..|s| - 1], s[|s| - 1];
      SplitJoin(t, sep);
      assert s == t + [c];
      if c == sep {
        JoinSnocEmpty(Split(t, sep), sep);
      } else {
        JoinExtendLast(Split(t, sep), sep, c);
      }
    }
  }

  /** The white-space characters `str::trim` removes (the ASCII ones). */
  predicate IsSpace(c: char) { c == ' ' || c == '\t' || c == '\n' || c == '\r' || c == '\U{B}' || c == '\U{C}' }

  function TrimStart(s: string): (r: string)
    ensures |r| <= |s| && r == s[|s| - |r|..]
    ensures r == [] || !IsSpace(r[0])
  {
    if s != [] && IsSpace(s[0]) then TrimStart(s[1..]) else s
  }

  function TrimEnd(s: string): (r: string)
    ensures |r| <= |s| && r == s[..|r|]
    ensures r == [] || !IsSpace(r[|r| - 1])
  {
    if s != [] && IsSpace(s[|s| - 1]) then TrimEnd(s[..|s| - 1]) else s
  }

  /** `str::trim`: no white space is left at either end. */
  function Trim(s: string): (r: string)
    ensures r == [] || (!IsSpace(r[0]) && !IsSpace(r[|r| - 1]))
  {
    TrimEnd(TrimStart(s))
  }

  /** `str::split_whitespace`: the maximal runs of non-white-space characters, in order. */
  function Words(s: string): (r: seq<string>)
    ensures forall k :: 0 <= k < |r| ==> r[k] != [] && forall t :: 0 <= t < |r[k]| ==> !IsSpace(r[k][t])
    ensures s != [] && !IsSpace(s[|s| - 1]) ==> |r| > 0
  {
    if s == [] then []
    else
      var init := s[..|s| - 1];
      var c := s[|s| - 1];
      var w := Words(init);
      if IsSpace(c) then w
      else if init == [] || IsSpace(init[|init| - 1]) then w + [[c]]
      else w[..|w| - 1] + [w[|w| - 1] + [c]]
  }

  /** The non-white-space characters of `s`, in order. */
  function NonSpace(s: string): string
  {
    if s == [] then [] else NonSpace(s[..|s| - 1]) + if IsSpace(s[|s| - 1]) then [] else [s[|s| - 1]]
  }

  function Concat(ws: seq<string>): string
  {
    if ws == [] then [] else Concat(ws[..|ws| - 1]) + ws[|ws| - 1]
  }

  lemma ConcatSnoc(ws: seq<string>, x: string)
    ensures Concat(ws + [x]) == Concat(ws) + x
  {
    assert (ws + [x])[..|ws|] == ws;
  }

  /** Splitting at white space drops the white space and nothing else. */
  lemma {:induction false} WordsConcat(s: string)
    ensures Concat(Words(s)) == NonSpace(s)
    decreases |s|
  {
    if s != [] {
      var init := s[..|s| - 1];
      var c := s[|s| - 1];
      var w := Words(init);
      WordsConcat(init);
      if IsSpace(c) {
      } else if init == [] || IsSpace(init[|init| - 1]) {
        ConcatSnoc(w, [c]);
      } else {
        var u := w[..|w| - 1];
        assert w == u + [w[|w| - 1]];
        ConcatSnoc(u, w[|w| - 1]);
        ConcatSnoc(u, w[|w| - 1] + [c]);
      }
    }
  }

  predicate AllDigits(s: string) { forall k :: 0 <= k < |s| ==> IsDigit(s[k]) }

  /** `u64::from_str` (overflow aside): an optional `+`, then one or more digits. */
  function ParseNat(s: string): (r: Option<nat>)
    ensures r.Some? <==> (AllDigits(s) && s != []) || (s != [] && s[0] == '+' && AllDigits(s[1..]) && |s| > 1)
  {
    if s != [] && s[0] == '+' then
      (if |s| > 1 && AllDigits(s[1..]) then Some(DecimalValue(s[1..])) else None)
    else if s != [] && AllDigits(s) then Some(DecimalValue(s))
    else None
  }

  /** `i64::from_str` (overflow aside): an optional sign, then one or more digits. */
  function ParseInt(s: string): (r: Option<int>)
    ensures r.Some? <==> |s| > 0 && ((s[0] == '-' || s[0] == '+') ==> |s| > 1 && AllDigits(s[1..]))
                                  && ((s[0] != '-' && s[0] != '+') ==> AllDigits(s))
  {
    if s != [] && s[0] == '-' then
      (if |s| > 1 && AllDigits(s[1..]) then Some(0 - DecimalValue(s[1..]) as int) else None)
    else match ParseNat(s)
      case Some(n) => Some(n)
      case None => None
  }

  // ------------------------------------------------------------- sorting

  predicate SortedBy<T>(s: seq<T>, key: T -> int)
  {
    forall a, b :: 0 <= a < b < |s| ==> key(s[a]) <= key(s[b])
  }

  /** A head no greater than every element keeps a sorted sequence sorted. */
  lemma ConsSorted<T>(h: T, r: seq<T>, key: T -> int)
    requires SortedBy(r, key) && forall k :: 0 <= k < |r| ==> key(h) <= key(r[k])
    ensures SortedBy([h] + r, key)
  {
  }

  function InsertBy<T>(x: T, s: seq<T>, key: T -> int): (r: seq<T>)
    requires SortedBy(s, key)
    ensures SortedBy(r, key) && multiset(r) == multiset(s) + multiset{x}
  {
    if s == [] then [x]
    else if key(x) <= key(s[0]) then
      ConsSorted(x, s, key);
      [x] + s
    else
      var rest := InsertBy(x, s[1..], key);
      assert s == [s[0]] + s[1..];
      assert forall k :: 0 <= k < |rest| ==> key(s[0]) <= key(rest[k]) by {
        forall k | 0 <= k < |rest| ensures key(s[0]) <= key(rest[k]) {
          assert rest[k] in multiset(rest);
        }
      }
      ConsSorted(s[0], rest, key);
      [s[0]] + rest
  }

  /** Stands for `sort_unstable_by_key`: a permutation of `s`, ordered by `key`. */
  function SortBy<T>(s: seq<T>, key: T -> int): (r: seq<T>)
    ensures SortedBy(r, key) && multiset(r) == multiset(s) && |r| == |s|
  {
    if s == [] then []
    else
      assert s == [s[0]] + s[1..];
      InsertBy(s[0], SortBy(s[1..], key), key)
  }
}
