/** Day 6: a worksheet of `height - 1` rows of numbers over one row of
    operators, `width` bytes wide. The sheet is scanned right to left: each
    problem spans from an operator up to the start of the problem on its
    right. Part 1 reads each number row across the span; part 2 reads each
    column of the span top to bottom, dropping columns that read 0. An
    operator `+` sums its operands, `*` multiplies them, any other byte is
    an error. */
module Day06 {
  import opened Common

  // ---------------------------------------------------------- the operands

  /** The fold `acc * 10 + digit` over the bytes that are not spaces. */
  function Number(s: string): nat
    requires forall k :: 0 <= k < |s| ==> s[k] == ' ' || IsDigit(s[k])
  {
    if s == [] then 0
    else
      var c := s[|s| - 1];
      var v := Number(s[..|s| - 1]);
      if c == ' ' then v else v * 10 + DigitValue(c)
  }

  /** The bytes of `s` that are not spaces, in order. */
  function Unspaced(s: string): (r: string)
    ensures forall k :: 0 <= k < |r| ==> r[k] != ' ' && r[k] in s
  {
    if s == [] then [] else Unspaced(s[..|s| - 1]) + if s[|s| - 1] == ' ' then [] else [s[|s| - 1]]
  }

  /** Without its spaces, an operand of digits and spaces is all digits. */
  lemma UnspacedDigits(s: string)
    requires forall k :: 0 <= k < |s| ==> s[k] == ' ' || IsDigit(s[k])
    ensures forall k :: 0 <= k < |Unspaced(s)| ==> IsDigit(Unspaced(s)[k])
  {
  }

  lemma DecimalSnoc(u: string, c: char)
    requires forall k :: 0 <= k < |u| ==> IsDigit(u[k])
    requires IsDigit(c)
    ensures DecimalValue(u + [c]) == DecimalValue(u) * 10 + DigitValue(c)
  {
    assert (u + [c])[..|u|] == u;
  }

  /** An operand is the decimal number its digits spell once the spaces are gone. */
  lemma {:induction false} NumberIsDecimal(s: string)
    requires forall k :: 0 <= k < |s| ==> s[k] == ' ' || IsDigit(s[k])
    ensures forall k :: 0 <= k < |Unspaced(s)| ==> IsDigit(Unspaced(s)[k])
    ensures Number(s) == DecimalValue(Unspaced(s))
    decreases |s|
  {
    UnspacedDigits(s);
    if s != [] {
      var init, c := s[..|s| - 1], s[|s| - 1];
      NumberIsDecimal(init);
      var u := Unspaced(init);
      assert IsDigit(c) || c == ' ';
      if c != ' ' {
        assert Unspaced(s) == u + [c];
        DecimalSnoc(u, c);
      } else {
        assert Unspaced(s) == u;
      }
    }
  }

  /** The well-formed sheet, as far as a scan ending at `end` reads it: the
      operator row reaches `end`, and unless it is blank there every number row
      reaches `end` and holds only digits and spaces. */
  predicate Sheet(ws: seq<seq<char>>, h: nat, end: nat)
  {
    |ws| == h >= 1 && |ws[h - 1]| >= end && (Blank(ws[h - 1], end) || Rows(ws, h, end))
  }

  /** Every number row reaches `end` and holds only digits and spaces before it. */
  predicate Rows(ws: seq<seq<char>>, h: nat, end: nat)
    requires |ws| == h >= 1
  {
    forall y :: 0 <= y < h - 1 ==> RowOk(ws[y], end)
  }

  predicate RowOk(row: string, end: nat)
  {
    |row| >= end && forall x :: 0 <= x < end ==> row[x] == ' ' || IsDigit(row[x])
  }

  /** A column of a well-formed sheet holds only digits and spaces. */
  lemma ColumnOk(ws: seq<seq<char>>, h: nat, end: nat, x: nat)
    requires |ws| == h >= 1 && Rows(ws, h, end) && x < end
    ensures forall y :: 0 <= y < h - 1 ==> x < |ws[y]| && (ws[y][x] == ' ' || IsDigit(ws[y][x]))
  {
    forall y | 0 <= y < h - 1 ensures x < |ws[y]| && (ws[y][x] == ' ' || IsDigit(ws[y][x])) {
      assert RowOk(ws[y], end);
    }
  }

  predicate Blank(ops: seq<char>, end: nat)
    requires end <= |ops|
  {
    forall x :: 0 <= x < end ==> ops[x] == ' '
  }

  /** The operands of part 1: one per number row, read across `[index, end)`. */
  function RowNumbers(ws: seq<seq<char>>, h: nat, index: nat, end: nat): (r: seq<nat>)
    requires |ws| == h >= 1 && Rows(ws, h, end) && index <= end
    ensures |r| == h - 1
  {
    seq(h - 1, y requires 0 <= y < h - 1 => assert RowOk(ws[y], end); Number(ws[y][index..end]))
  }

  /** Column `x` of the number rows, top to bottom. */
  function Column(ws: seq<seq<char>>, h: nat, x: nat): (r: string)
    requires |ws| == h >= 1 && forall y :: 0 <= y < h - 1 ==> x < |ws[y]|
    ensures |r| == h - 1
  {
    seq(h - 1, y requires 0 <= y < h - 1 => ws[y][x])
  }

  function ColumnNumber(ws: seq<seq<char>>, h: nat, end: nat, x: nat): nat
    requires |ws| == h >= 1 && Rows(ws, h, end) && x < end
  {
    ColumnOk(ws, h, end, x);
    Number(Column(ws, h, x))
  }

  /** Every column of `[index, e)` read top to bottom, zeros included. */
  function AllColumns(ws: seq<seq<char>>, h: nat, index: nat, end: nat, e: nat): (r: seq<nat>)
    requires |ws| == h >= 1 && Rows(ws, h, end) && index <= e <= end
    ensures |r| == e - index
    decreases e
  {
    if e == index then [] else AllColumns(ws, h, index, end, e - 1) + [ColumnNumber(ws, h, end, e - 1)]
  }

  /** `filter_map` dropping the zeros, order kept. */
  function Nonzero(s: seq<nat>): (r: seq<nat>)
    ensures 0 !in r && |r| <= |s|
  {
    if s == [] then [] else Nonzero(s[..|s| - 1]) + if s[|s| - 1] == 0 then [] else [s[|s| - 1]]
  }

  /** The operands of part 2: the columns of `[index, end)` read top to bottom,
      left to right, those reading 0 dropped. */
  function ColumnNumbers(ws: seq<seq<char>>, h: nat, index: nat, end: nat): seq<nat>
    requires |ws| == h >= 1 && Rows(ws, h, end) && index <= end
  {
    Nonzero(AllColumns(ws, h, index, end, end))
  }

  /** Dropping the zeros leaves the sum unchanged. */
  lemma {:induction false} NonzeroSum(s: seq<nat>)
    ensures Sum(Nonzero(s)) == Sum(s)
  {
    if s != [] {
      NonzeroSum(s[..|s| - 1]);
      var v := s[|s| - 1];
      SumAppend(Nonzero(s[..|s| - 1]), if v == 0 then [] else [v]);
    }
  }

  /** Dropping the zeros leaves no zero factor in the product: a blank
      separator column cannot wipe out a product. */
  lemma NonzeroProduct(s: seq<nat>)
    ensures Product(Nonzero(s)) > 0
  {
    var r := Nonzero(s);
    forall k | 0 <= k < |r| ensures r[k] > 0 {
      assert r[k] in r;
    }
    ProductPositive(r);
  }

  // ------------------------------------------------------------ the scan

  /** `rposition`: the rightmost non-space operator byte before `end`. */
  function LastOperator(ops: seq<char>, end: nat): (r: Option<nat>)
    requires end <= |ops|
    ensures r.None? <==> Blank(ops, end)
    ensures r.Some? ==> r.value < end && ops[r.value] != ' ' && forall x :: r.value < x < end ==> ops[x] == ' '
  {
    if end == 0 then None
    else if ops[end - 1] != ' ' then Some(end - 1)
    else LastOperator(ops, end - 1)
  }

  /** Both parts of a sheet, or the panic on an operator byte other than `+` and `*`. */
  datatype Outcome = Panics | Answer(p1: nat, p2: nat)

  /** One problem's contribution to both parts; `Panics` for an unknown operator. */
  function Problem(ws: seq<seq<char>>, h: nat, index: nat, end: nat): (r: Outcome)
    requires |ws| == h >= 1 && index < end <= |ws[h - 1]| && Rows(ws, h, end)
    ensures r.Panics? <==> ws[h - 1][index] != '+' && ws[h - 1][index] != '*'
  {
    var ops := ws[h - 1];
    if ops[index] == '+' then Answer(Sum(RowNumbers(ws, h, index, end)), Sum(ColumnNumbers(ws, h, index, end)))
    else if ops[index] == '*' then Answer(Product(RowNumbers(ws, h, index, end)), Product(ColumnNumbers(ws, h, index, end)))
    else Panics
  }

  function Add(p1: nat, p2: nat, r: Outcome): Outcome
  {
    match r
    case Panics => Panics
    case Answer(q1, q2) => Answer(p1 + q1, p2 + q2)
  }

  /** One problem's contribution added to those on its left; an error stays an error. */
  function Then(p: Outcome, rest: Outcome): Outcome
  {
    if p.Panics? then Panics else Add(p.p1, p.p2, rest)
  }

  /** Both parts over the problems left of `end`. */
  function Totals(ws: seq<seq<char>>, h: nat, end: nat): Outcome
    requires Sheet(ws, h, end)
    decreases end
  {
    var found := LastOperator(ws[h - 1], end);
    if found.None? then Answer(0, 0)
    else Then(Problem(ws, h, found.value, end), Totals(ws, h, found.value))
  }

  /** One step of the scan: the problem at the rightmost operator, then the rest. */
  lemma TotalsStep(ws: seq<seq<char>>, h: nat, end: nat, index: nat)
    requires Sheet(ws, h, end) && LastOperator(ws[h - 1], end).Some? && LastOperator(ws[h - 1], end).value == index
    ensures index < end && Rows(ws, h, end) && Sheet(ws, h, index)
    ensures Totals(ws, h, end) == Then(Problem(ws, h, index, end), Totals(ws, h, index))
  {
  }

  /** A bad operator byte: neither a space, `+` nor `*`. */
  predicate BadOperator(ops: seq<char>, end: nat)
    requires end <= |ops|
  {
    exists x :: 0 <= x < end && ops[x] != ' ' && ops[x] != '+' && ops[x] != '*'
  }

  /** The scan fails exactly when some operator byte is neither `+` nor `*`. */
  lemma {:induction false} TotalsFail(ws: seq<seq<char>>, h: nat, end: nat)
    requires Sheet(ws, h, end)
    ensures Totals(ws, h, end).Panics? <==> BadOperator(ws[h - 1], end)
    decreases end
  {
    var ops := ws[h - 1];
    var found := LastOperator(ops, end);
    if found.Some? {
      var index := found.value;
      TotalsStep(ws, h, end, index);
      TotalsFail(ws, h, index);
      if ops[index] == '+' || ops[index] == '*' {
        BadLeft(ops, end, index);
      }
    }
  }

  /** Right of a good operator the bytes are spaces, so a bad byte lies left of it. */
  lemma BadLeft(ops: seq<char>, end: nat, index: nat)
    requires index < end <= |ops| && (ops[index] == '+' || ops[index] == '*')
    requires forall x :: index < x < end ==> ops[x] == ' '
    ensures BadOperator(ops, end) <==> BadOperator(ops, index)
  {
    if BadOperator(ops, end) {
      var x :| 0 <= x < end && ops[x] != ' ' && ops[x] != '+' && ops[x] != '*';
      assert x < index;
    }
  }

  /** The scan of `resolve` so far: `(p1, p2)` holds the problems right of
      `end`, and adding those left of it gives the totals of the sheet. */
  predicate Scanned(ws: seq<seq<char>>, h: nat, width: nat, end: nat, p1: nat, p2: nat)
  {
    end <= width && Sheet(ws, h, width) && Sheet(ws, h, end) &&
    Totals(ws, h, width) == Add(p1, p2, Totals(ws, h, end))
  }

  lemma ScanStep(ws: seq<seq<char>>, h: nat, width: nat, end: nat, index: nat, p1: nat, p2: nat, a: nat, b: nat, q1: nat, q2: nat)
    requires Scanned(ws, h, width, end, p1, p2) && q1 == p1 + a && q2 == p2 + b
    requires LastOperator(ws[h - 1], end).Some? && LastOperator(ws[h - 1], end).value == index
    requires Rows(ws, h, end) && Problem(ws, h, index, end) == Answer(a, b)
    ensures Scanned(ws, h, width, index, q1, q2)
  {
    TotalsStep(ws, h, end, index);
    AddThen(Totals(ws, h, width), Totals(ws, h, end), Problem(ws, h, index, end), Totals(ws, h, index), p1, p2, a, b, q1, q2);
  }

  lemma AddThen(total: Outcome, here: Outcome, p: Outcome, rest: Outcome, p1: nat, p2: nat, a: nat, b: nat, q1: nat, q2: nat)
    requires total == Add(p1, p2, here) && here == Then(p, rest) && p == Answer(a, b)
    requires q1 == p1 + a && q2 == p2 + b
    ensures total == Add(q1, q2, rest)
  {
  }

  // ------------------------------------------------------------- resolve

  /** Every line past the `h` rows of the worksheet is empty: only then does
      filling the rows index no row that is not there. */
  predicate Fits(lines: seq<string>, h: nat)
  {
    forall y :: h <= y < |lines| ==> lines[y] == []
  }

  /** The worksheet the lines fill: row `y` holds line `y`, missing rows are empty. */
  function Worksheet(lines: seq<string>, h: nat): (ws: seq<seq<char>>)
    ensures |ws| == h
    ensures Fits(lines, h) ==> forall y :: 0 <= y < |lines| ==> lines[y] == if y < h then ws[y] else []
  {
    seq(h, y requires 0 <= y < h => if y < |lines| then lines[y] else [])
  }

  /** Pushes every byte of line `y` onto row `y` of a fixed array of rows;
      `ok` is false where a byte lands on a row past the array. */
  method BuildWorksheet(lines: seq<string>, h: nat) returns (ok: bool, worksheet: array<seq<char>>)
    ensures fresh(worksheet) && worksheet.Length == h
    ensures ok == Fits(lines, h)
    ensures ok ==> worksheet[..] == Worksheet(lines, h)
  {
    worksheet := new seq<char>[h](_ => []);
    for y := 0 to |lines|
      invariant forall b :: 0 <= b < h ==> worksheet[b] == if b < y then lines[b] else []
      invariant forall b :: h <= b < y ==> lines[b] == []
    {
      var line := lines[y];
      if y >= h && |line| > 0 {
        return false, worksheet;
      }
      for x := 0 to |line|
        invariant forall b :: 0 <= b < h ==> worksheet[b] == if b < y then lines[b] else if b == y then line[..x] else []
      {
        worksheet[y] := worksheet[y] + [line[x]];
      }
    }
    ok := true;
  }

  /** One problem: the operands of both parts combined by its operator,
      `Panics` for an operator byte the source does not know. */
  method Solve(ws: seq<seq<char>>, h: nat, index: nat, end: nat) returns (r: Outcome)
    requires |ws| == h >= 1 && index < end <= |ws[h - 1]| && Rows(ws, h, end)
    ensures r == Problem(ws, h, index, end)
  {
    var numbers1 := RowNumbers(ws, h, index, end);
    var numbers2 := ColumnNumbers(ws, h, index, end);
    match ws[h - 1][index]
    case '+' =>
      r := Answer(Sum(numbers1), Sum(numbers2));
    case '*' =>
      r := Answer(Product(numbers1), Product(numbers2));
    case _ =>
      r := Panics;
  }

  /** What `resolve` returns: `Panics` when a non-empty line lies past the
      worksheet, when the operator row is shorter than the sheet width (the
      slice `operations[..end]`), or on an unknown operator; else both parts. */
  function Resolved(lines: seq<string>, width: nat, h: nat): Outcome
    requires h >= 1
    requires Fits(lines, h) && width <= |Worksheet(lines, h)[h - 1]| ==> Sheet(Worksheet(lines, h), h, width)
  {
    var ws := Worksheet(lines, h);
    if !Fits(lines, h) || |ws[h - 1]| < width then Panics else Totals(ws, h, width)
  }

  /** Empty lines at the end, such as a file's closing blank line, push no byte
      and leave the answer unchanged. */
  lemma BlankLinesIgnored(lines: seq<string>, blank: seq<string>, width: nat, h: nat)
    requires h >= 1 && forall k :: 0 <= k < |blank| ==> blank[k] == []
    requires Fits(lines, h) && width <= |Worksheet(lines, h)[h - 1]| ==> Sheet(Worksheet(lines, h), h, width)
    ensures Worksheet(lines + blank, h) == Worksheet(lines, h)
    ensures Fits(lines + blank, h) == Fits(lines, h)
    ensures Resolved(lines + blank, width, h) == Resolved(lines, width, h)
  {
    var all := lines + blank;
    forall y | 0 <= y < |all| ensures all[y] == if y < |lines| then lines[y] else [] {
      if y >= |lines| {
        assert all[y] == blank[y - |lines|];
      }
    }
    assert Worksheet(all, h) == Worksheet(lines, h);
  }

  /** `resolve`: both parts, or `Panics` where the source panics on a line past
      the worksheet, a short operator row or an unknown operator. */
  method Resolve(lines: seq<string>, width: nat, h: nat) returns (r: Outcome)
    requires h >= 1
    requires Fits(lines, h) && width <= |Worksheet(lines, h)[h - 1]| ==> Sheet(Worksheet(lines, h), h, width)
    ensures r == Resolved(lines, width, h)
    ensures r.Panics? <==> (!Fits(lines, h) || |Worksheet(lines, h)[h - 1]| < width ||
                            BadOperator(Worksheet(lines, h)[h - 1], width))
  {
    var filled, worksheet := BuildWorksheet(lines, h);
    if !filled {
      return Panics;
    }
    var ws := worksheet[..];
    var operations := worksheet[h - 1];
    if |operations| < width {
      return Panics;
    }
    var p1: nat, p2: nat := 0, 0;
    var end: nat := width;
    TotalsFail(ws, h, width);
    while true
      invariant end <= width && Sheet(ws, h, end)
      invariant Scanned(ws, h, width, end, p1, p2)
      decreases end
    {
      var found := LastOperator(operations, end);
      if found.None? {
        break;
      }
      var index := found.value;
      TotalsStep(ws, h, end, index);
      var value := Solve(ws, h, index, end);
      if value.Panics? {
        return Panics;
      }
      var a, b := value.p1, value.p2;
      ghost var (q1, q2, right) := (p1, p2, end);
      p1, p2 := p1 + a, p2 + b;
      end := index;
      ScanStep(ws, h, width, right, end, q1, q2, a, b, p1, p2);
    }
    return Answer(p1, p2);
  }
}
