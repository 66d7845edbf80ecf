/** Day 6: a worksheet of numbers in columns, each column added up or
    multiplied as the operator under it says, and the grand total of the
    column results (src/bin/day06.rs). */
module Day06 {
  import opened Text

  datatype Operation = Add | Multiply

  /** `MathHomework`: rows of `u64` numbers and one operator per column. */
  datatype MathHomework = MathHomework(numbers: seq<seq<nat>>, operations: seq<Operation>)

  /** What a successful parse guarantees: at least one row, and every row
      holds one number per operator. */
  predicate Rectangular(hw: MathHomework) {
    |hw.numbers| > 0 && forall k :: 0 <= k < |hw.numbers| ==> |hw.numbers[k]| == |hw.operations|
  }

  // ---------------------------------------------------------------------
  // Columns

  /** Every row has an `i`-th number. */
  predicate Reaches(rows: seq<seq<nat>>, i: nat) {
    forall k :: 0 <= k < |rows| ==> i < |rows[k]|
  }

  /** The `i`-th numbers of the rows, top to bottom. */
  function Column(rows: seq<seq<nat>>, i: nat): seq<nat>
    requires Reaches(rows, i)
  {
    seq(|rows|, k requires 0 <= k < |rows| => rows[k][i])
  }

  function Product(xs: seq<nat>): nat {
    if xs == [] then 1 else Product(xs[..|xs| - 1]) * xs[|xs| - 1]
  }

  /** `rows.iter().map(|row| row[i]).sum::<u64>()`: indexing a row too short
      panics, and so does a running total that leaves `u64`. */
  function ColumnSum(rows: seq<seq<nat>>, i: nat): Result<nat> {
    if rows == [] then Ok(0)
    else
      var total :- ColumnSum(rows[..|rows| - 1], i);
      var row := rows[|rows| - 1];
      if |row| <= i then Panic
      else if total + row[i] >= U64_LIMIT then Panic
      else Ok(total + row[i])
  }

  /** `rows.iter().map(|row| row[i]).product::<u64>()`, panicking in the same
      two ways. */
  function ColumnProduct(rows: seq<seq<nat>>, i: nat): Result<nat> {
    if rows == [] then Ok(1)
    else
      var total :- ColumnProduct(rows[..|rows| - 1], i);
      var row := rows[|rows| - 1];
      if |row| <= i then Panic
      else if total * row[i] >= U64_LIMIT then Panic
      else Ok(total * row[i])
  }

  /** The result of column `i` under operator `op`. */
  function ColumnTotal(rows: seq<seq<nat>>, op: Operation, i: nat): Result<nat> {
    match op
    case Add => ColumnSum(rows, i)
    case Multiply => ColumnProduct(rows, i)
  }

  /** Every product of a first part of `xs` fits `u64`. */
  predicate RunningProductsFit(xs: seq<nat>) {
    forall k :: 0 <= k <= |xs| ==> Product(xs[..k]) < U64_LIMIT
  }

  /** A sum fits once its total does; a product must fit at every step,
      since a later zero does not undo an earlier overflow. */
  predicate ColumnFits(op: Operation, xs: seq<nat>) {
    match op
    case Add => Sum(xs) < U64_LIMIT
    case Multiply => RunningProductsFit(xs)
  }

  /** The value of a column under an operator, without bounds. */
  function Evaluate(op: Operation, xs: seq<nat>): nat {
    match op
    case Add => Sum(xs)
    case Multiply => Product(xs)
  }

  lemma {:induction false} ColumnSumValue(rows: seq<seq<nat>>, i: nat)
    requires Reaches(rows, i)
    ensures ColumnSum(rows, i) == if Sum(Column(rows, i)) < U64_LIMIT then Ok(Sum(Column(rows, i))) else Panic
    decreases |rows|
  {
    if rows != [] {
      var init := rows[..|rows| - 1];
      var c := Column(rows, i);
      assert Column(init, i) == c[..|c| - 1];
      ColumnSumValue(init, i);
    }
  }

  lemma {:induction false} ColumnProductValue(rows: seq<seq<nat>>, i: nat)
    requires Reaches(rows, i)
    ensures ColumnProduct(rows, i) == if RunningProductsFit(Column(rows, i)) then Ok(Product(Column(rows, i))) else Panic
    decreases |rows|
  {
    var c := Column(rows, i);
    if rows == [] {
      assert c[..0] == [];
    } else {
      var init := rows[..|rows| - 1];
      var ci := Column(init, i);
      assert ci == c[..|c| - 1];
      ColumnProductValue(init, i);
      RunningProductsSnoc(c);
    }
  }

  /** The running products of `xs` fit exactly when those of all but its
      last number do and the whole product does. */
  lemma {:induction false} RunningProductsSnoc(xs: seq<nat>)
    requires xs != []
    ensures RunningProductsFit(xs) <==> RunningProductsFit(xs[..|xs| - 1]) && Product(xs) < U64_LIMIT
  {
    var init := xs[..|xs| - 1];
    assert xs[..|xs|] == xs;
    forall k | 0 <= k <= |init|
      ensures init[..k] == xs[..k]
    {
    }
  }

  /** Without a zero the running products grow, so they all fit exactly
      when the whole product does. */
  lemma {:induction false} ProductsFitWithoutZero(xs: seq<nat>)
    requires forall k :: 0 <= k < |xs| ==> xs[k] > 0
    ensures RunningProductsFit(xs) <==> Product(xs) < U64_LIMIT
    decreases |xs|
  {
    if xs == [] {
      assert xs[..0] == [];
    } else {
      var init := xs[..|xs| - 1];
      ProductsFitWithoutZero(init);
      RunningProductsSnoc(xs);
      MulMonotone(1, xs[|xs| - 1], Product(init));
    }
  }

  /** A product that leaves `u64` panics even when a later zero would
      bring it back. */
  lemma OverflowBeforeZero(rows: seq<seq<nat>>)
    requires rows == [[U32_LIMIT], [U32_LIMIT], [0]]
    ensures Product(Column(rows, 0)) == 0
    ensures ColumnProduct(rows, 0) == Panic
  {
    var c := Column(rows, 0);
    assert c == [U32_LIMIT, U32_LIMIT, 0];
    ThreeNumbers(U32_LIMIT, U32_LIMIT, 0);
    assert c[..2] == [U32_LIMIT, U32_LIMIT];
    assert c[..2][..1] == [U32_LIMIT] && c[..2][..1][..0] == [];
    assert Product(c[..2][..1]) == U32_LIMIT;
    assert U32_LIMIT * U32_LIMIT == U64_LIMIT;
    assert Product(c[..2]) == U64_LIMIT;
    ColumnProductValue(rows, 0);
  }

  /** A row too short for column `i` makes the column panic. */
  lemma {:induction false} ShortRowPanics(rows: seq<seq<nat>>, op: Operation, i: nat)
    requires !Reaches(rows, i)
    ensures ColumnTotal(rows, op, i) == Panic
    decreases |rows|
  {
    var init := rows[..|rows| - 1];
    if Reaches(init, i) {
      assert |rows[|rows| - 1]| <= i by {
        forall k | 0 <= k < |init| ensures i < |rows[k]| {
          assert rows[k] == init[k];
        }
      }
      if op == Add {
        ColumnSumValue(init, i);
      } else {
        ColumnProductValue(init, i);
      }
    } else {
      ShortRowPanics(init, op, i);
    }
  }

  lemma ColumnTotalValue(rows: seq<seq<nat>>, op: Operation, i: nat)
    requires Reaches(rows, i)
    ensures ColumnTotal(rows, op, i)
            == if ColumnFits(op, Column(rows, i)) then Ok(Evaluate(op, Column(rows, i))) else Panic
  {
    if op == Add {
      ColumnSumValue(rows, i);
    } else {
      ColumnProductValue(rows, i);
    }
  }

  // ---------------------------------------------------------------------
  // The grand total

  /** The column results, one per operator. */
  function ColumnTotals(hw: MathHomework): (totals: seq<Result<nat>>)
    ensures |totals| == |hw.operations|
  {
    seq(|hw.operations|, i requires 0 <= i < |hw.operations| => ColumnTotal(hw.numbers, hw.operations[i], i))
  }

  /** `MathHomework::grand_total`: adds up the column results in `u64`,
      column by column; an overflowing column or total, or a row too short
      to index, panics. */
  method GrandTotal(hw: MathHomework) returns (total: Result<nat>)
    ensures total == SumOutcomes(ColumnTotals(hw))
  {
    ghost var totals := ColumnTotals(hw);
    var grandTotal: nat := 0;
    for i := 0 to |hw.operations|
      invariant SumOutcomes(totals[..i]) == Ok(grandTotal)
    {
      var column := ColumnTotal(hw.numbers, hw.operations[i], i);
      PrefixStep(totals, i + 1);
      assert totals[..i + 1][..i] == totals[..i];
      if !column.Ok? {
        SumOutcomesStuck(totals, i + 1);
        return column;
      }
      if grandTotal + column.value >= U64_LIMIT {
        SumOutcomesStuck(totals, i + 1);
        return Panic;
      }
      grandTotal := grandTotal + column.value;
    }
    assert totals[..|hw.operations|] == totals;
    total := Ok(grandTotal);
  }

  /** Every column fits its operator. */
  predicate AllColumnsFit(hw: MathHomework)
    requires forall k :: 0 <= k < |hw.numbers| ==> |hw.operations| <= |hw.numbers[k]|
  {
    forall i :: 0 <= i < |hw.operations| ==> ColumnFits(hw.operations[i], Column(hw.numbers, i))
  }

  /** The column values without bounds. */
  function Answers(hw: MathHomework): (answers: seq<nat>)
    requires forall k :: 0 <= k < |hw.numbers| ==> |hw.operations| <= |hw.numbers[k]|
    ensures |answers| == |hw.operations|
  {
    seq(|hw.operations|, i requires 0 <= i < |hw.operations| => Evaluate(hw.operations[i], Column(hw.numbers, i)))
  }

  /** When every row has a number for every operator, the grand total is
      the sum of the column values, and it panics exactly when a column or
      that sum does not fit `u64`; it is never an error. */
  lemma GrandTotalValue(hw: MathHomework)
    requires forall k :: 0 <= k < |hw.numbers| ==> |hw.operations| <= |hw.numbers[k]|
    ensures SumOutcomes(ColumnTotals(hw))
            == if AllColumnsFit(hw) && Sum(Answers(hw)) < U64_LIMIT then Ok(Sum(Answers(hw))) else Panic
  {
    var totals := ColumnTotals(hw);
    forall i | 0 <= i < |totals|
      ensures totals[i] == if ColumnFits(hw.operations[i], Column(hw.numbers, i))
                           then Ok(Answers(hw)[i]) else Panic
    {
      ColumnTotalValue(hw.numbers, hw.operations[i], i);
    }
    SumOutcomesOk(totals);
    if AllColumnsFit(hw) {
      assert AllOk(totals);
      assert Values(totals) == Answers(hw);
    } else {
      var i :| 0 <= i < |hw.operations| && !ColumnFits(hw.operations[i], Column(hw.numbers, i));
      assert !totals[i].Ok?;
    }
  }

  // ---------------------------------------------------------------------
  // Parsing

  /** `Operation::from_str`. */
  function OperationFromStr(s: string): Result<Operation> {
    if s == "+" then Ok(Add) else if s == "*" then Ok(Multiply) else Err
  }

  function OperationText(op: Operation): string {
    match op
    case Add => "+"
    case Multiply => "*"
  }

  /** Only the two operator texts read, each as its own operator. */
  lemma OperationReads(s: string, op: Operation)
    ensures OperationFromStr(s) == Ok(op) <==> s == OperationText(op)
    ensures OperationFromStr(s).Err? <==> s != "+" && s != "*"
  {
  }

  /** The operators of the last line, split at whitespace. */
  function OperationsFromLine(line: string): (r: Result<seq<Operation>>)
    ensures !r.Panic?
  {
    var words := SplitWhitespace(line);
    var outcomes := seq(|words|, k requires 0 <= k < |words| => OperationFromStr(words[k]));
    CollectNoPanic(outcomes);
    Collect(outcomes)
  }

  /** A row of numbers, split at whitespace, each read as a `u64`. */
  function RowFromLine(line: string): (r: Result<seq<nat>>)
    ensures !r.Panic?
  {
    var words := SplitWhitespace(line);
    var outcomes := seq(|words|, k requires 0 <= k < |words| => ParseUnsigned(words[k], U64_LIMIT));
    CollectNoPanic(outcomes);
    Collect(outcomes)
  }

  /** `MathHomework::from_str`: the last line holds the operators, the lines
      before it the rows; text with no line panics at the `expect`, and a
      line that does not read, no row, rows of different lengths or an
      operator count that is not the row length are errors. */
  function FromStr(s: string): (r: Result<MathHomework>)
    ensures r.Panic? <==> s == []
    ensures r.Ok? ==> Rectangular(r.value)
  {
    var lines := Lines(s);
    if lines == [] then Panic
    else
      var operations :- OperationsFromLine(lines[|lines| - 1]);
      var rows := seq(|lines| - 1, k requires 0 <= k < |lines| - 1 => RowFromLine(lines[k]));
      CollectNoPanic(rows);
      var numbers :- Collect(rows);
      if |numbers| == 0 then Err
      else if !(forall k :: 0 <= k < |numbers| ==> |numbers[k]| == |numbers[0]|) then Err
      else if |operations| != |numbers[0]| then Err
      else Ok(MathHomework(numbers, operations))
  }

  /** What the parse gives: when some line is given, it succeeds exactly
      when the last line reads as operators, every other line as a row, and
      the rows and operators form a rectangle; otherwise it is an error. */
  lemma FromStrOutcome(s: string)
    requires s != []
    ensures var lines := Lines(s);
            var rows := seq(|lines| - 1, k requires 0 <= k < |lines| - 1 => RowFromLine(lines[k]));
            var ops := OperationsFromLine(lines[|lines| - 1]);
            FromStr(s) == if ops.Ok? && AllOk(rows) && Rectangular(MathHomework(Values(rows), ops.value))
                          then Ok(MathHomework(Values(rows), ops.value)) else Err
  {
    var lines := Lines(s);
    var rows := seq(|lines| - 1, k requires 0 <= k < |lines| - 1 => RowFromLine(lines[k]));
    Collected(rows);
    if AllOk(rows) {
      assert Collect(rows).value == Values(rows);
    }
  }

  // ---------------------------------------------------------------------
  // Writing a worksheet

  function RowText(row: seq<nat>): string {
    JoinWords(seq(|row|, j requires 0 <= j < |row| => Decimal(row[j])))
  }

  function OperationsText(ops: seq<Operation>): string {
    JoinWords(seq(|ops|, j requires 0 <= j < |ops| => OperationText(ops[j])))
  }

  /** The rows, one per line with their numbers separated by spaces, then
      the operators on the last line. */
  function HomeworkText(hw: MathHomework): string {
    UnlinesAll(seq(|hw.numbers|, k requires 0 <= k < |hw.numbers| => RowText(hw.numbers[k]))
               + [OperationsText(hw.operations)])
  }

  lemma RowReads(row: seq<nat>)
    requires forall j :: 0 <= j < |row| ==> row[j] < U64_LIMIT
    ensures RowFromLine(RowText(row)) == Ok(row)
    ensures '\n' !in RowText(row) && '\r' !in RowText(row)
  {
    var words := seq(|row|, j requires 0 <= j < |row| => Decimal(row[j]));
    forall j | 0 <= j < |words|
      ensures IsWord(words[j]) && '\n' !in words[j] && '\r' !in words[j]
    {
      assert forall c :: c in words[j] ==> IsDigit(c);
    }
    SplitJoinWords(words);
    JoinWordsAvoids(words, '\n');
    JoinWordsAvoids(words, '\r');
    var outcomes := seq(|words|, k requires 0 <= k < |words| => ParseUnsigned(words[k], U64_LIMIT));
    forall j | 0 <= j < |words|
      ensures outcomes[j] == Ok(row[j])
    {
      ParseDecimal(row[j], U64_LIMIT);
    }
    Collected(outcomes);
    assert Collect(outcomes).value == row;
  }

  lemma OperationsRead(ops: seq<Operation>)
    ensures OperationsFromLine(OperationsText(ops)) == Ok(ops)
    ensures '\n' !in OperationsText(ops) && '\r' !in OperationsText(ops)
  {
    var words := seq(|ops|, j requires 0 <= j < |ops| => OperationText(ops[j]));
    var outcomes := seq(|words|, k requires 0 <= k < |words| => OperationFromStr(words[k]));
    forall j | 0 <= j < |words|
      ensures IsWord(words[j]) && '\n' !in words[j] && '\r' !in words[j]
      ensures outcomes[j] == Ok(ops[j])
    {
      OperationReads(words[j], ops[j]);
      if ops[j] == Add {
        assert words[j] == "+";
      } else {
        assert words[j] == "*";
      }
    }
    SplitJoinWords(words);
    JoinWordsAvoids(words, '\n');
    JoinWordsAvoids(words, '\r');
    Collected(outcomes);
    assert Collect(outcomes).value == ops;
  }

  /** A rectangular worksheet of `u64` numbers, written out, reads back as
      itself. */
  lemma HomeworkRoundTrip(hw: MathHomework)
    requires Rectangular(hw)
    requires forall k, j :: 0 <= k < |hw.numbers| && 0 <= j < |hw.numbers[k]| ==> hw.numbers[k][j] < U64_LIMIT
    ensures FromStr(HomeworkText(hw)) == Ok(hw)
  {
    var rowTexts := seq(|hw.numbers|, k requires 0 <= k < |hw.numbers| => RowText(hw.numbers[k]));
    var lines := rowTexts + [OperationsText(hw.operations)];
    forall k | 0 <= k < |hw.numbers|
      ensures RowFromLine(lines[k]) == Ok(hw.numbers[k])
      ensures '\n' !in lines[k] && '\r' !in lines[k]
    {
      RowReads(hw.numbers[k]);
    }
    OperationsRead(hw.operations);
    LinesOfHomework(lines);
    var s := HomeworkText(hw);
    LinesUnlines(lines);
    assert s != [] by {
      assert UnlinesAll(lines) == lines[0] + "\n" + UnlinesAll(lines[1..]);
    }
    FromStrOutcome(s);
    var rows := seq(|lines| - 1, k requires 0 <= k < |lines| - 1 => RowFromLine(lines[k]));
    assert AllOk(rows);
    assert Values(rows) == hw.numbers;
  }

  lemma LinesOfHomework(lines: seq<string>)
    requires forall k :: 0 <= k < |lines| ==> '\n' !in lines[k] && '\r' !in lines[k]
    ensures forall i, k :: 0 <= i < |lines| && 0 <= k < |lines[i]| ==> lines[i][k] != '\n' && lines[i][k] != '\r'
  {
    forall i, k | 0 <= i < |lines| && 0 <= k < |lines[i]|
      ensures lines[i][k] != '\n' && lines[i][k] != '\r'
    {
      assert lines[i][k] in lines[i];
    }
  }

  // ---------------------------------------------------------------------
  // The worksheet of the test

  const EXAMPLE := MathHomework([[123, 328, 51, 64], [45, 64, 387, 23], [6, 98, 215, 314]],
                                [Multiply, Add, Multiply, Add])

  /** The columns give 33210, 490, 4243455 and 401, in total 4277556. */
  lemma ExampleGrandTotal(hw: MathHomework)
    requires hw == EXAMPLE
    ensures SumOutcomes(ColumnTotals(hw)) == Ok(4277556)
  {
    var rows := hw.numbers;
    ExampleColumns(hw);
    ThreeNumbers(123, 45, 6);
    ThreeNumbers(328, 64, 98);
    ThreeNumbers(51, 387, 215);
    ThreeNumbers(64, 23, 314);
    ProductsFitWithoutZero([123, 45, 6]);
    ProductsFitWithoutZero([51, 387, 215]);
    var answers := Answers(hw);
    assert answers[0] == 33210 && answers[1] == 490 && answers[2] == 4243455 && answers[3] == 401;
    FourSum(answers);
    assert AllColumnsFit(hw) by {
      forall i | 0 <= i < |hw.operations|
        ensures ColumnFits(hw.operations[i], Column(rows, i))
      {
        if i == 0 {} else if i == 1 {} else if i == 2 {} else {}
      }
    }
    GrandTotalValue(hw);
  }

  lemma ExampleColumns(hw: MathHomework)
    requires hw == EXAMPLE
    ensures Column(hw.numbers, 0) == [123, 45, 6] && Column(hw.numbers, 1) == [328, 64, 98]
    ensures Column(hw.numbers, 2) == [51, 387, 215] && Column(hw.numbers, 3) == [64, 23, 314]
  {
  }

  lemma ThreeNumbers(a: nat, b: nat, c: nat)
    ensures Sum([a, b, c]) == a + b + c && Product([a, b, c]) == a * b * c
  {
    assert [a, b, c][..2] == [a, b] && [a, b][..1] == [a] && [a][..0] == [];
    assert Sum([a]) == a && Product([a]) == a;
    assert Sum([a, b]) == a + b && Product([a, b]) == a * b;
  }

  lemma FourSum(xs: seq<nat>)
    requires |xs| == 4
    ensures Sum(xs) == xs[0] + xs[1] + xs[2] + xs[3]
  {
    assert xs[..1][..0] == [] && xs[..2][..1] == xs[..1] && xs[..3][..2] == xs[..2];
    assert Sum(xs[..1]) == xs[0];
    assert Sum(xs[..2]) == xs[0] + xs[1];
    assert Sum(xs[..3]) == xs[0] + xs[1] + xs[2];
  }
}
