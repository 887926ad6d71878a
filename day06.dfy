/**
  The cephalopod math worksheet: lines of numbers and, on the last line, one
  operator per column. Each column's numbers are added or multiplied as its
  operator says, and the grand total is the sum of the column results.
*/
module Day06 {
  import opened Wrappers
  import opened Text

  datatype Operator = Addition | Multiplication

  /** One whitespace-separated entry of the worksheet. */
  datatype Item = NumberItem(number: nat) | OperatorItem(operator: Operator)

  // ---------------------------------------------------------------------------
  // to_vec and to_vec_of_vecs
  // ---------------------------------------------------------------------------

  /** A token `to_vec` accepts: an operator, or else a `u64` literal. */
  predicate IsToken(token: string) {
    token != [] && (token[0] == '*' || token[0] == '+' || ParseU64(token).Some?)
  }

  /** A line `to_vec` accepts: every whitespace-separated token is one it accepts. */
  predicate IsItemLine(line: string) {
    forall token :: token in SplitWhitespace(line) ==> IsToken(token)
  }

  /** The item of one token: its first character decides an operator, otherwise it is a number. */
  function TokenItem(token: string): (item: Item)
    requires IsToken(token)
    ensures item == OperatorItem(Multiplication) <==> token[0] == '*'
    ensures item == OperatorItem(Addition) <==> token[0] == '+'
    ensures item.NumberItem? ==> ParseU64(token) == Some(item.number)
  {
    var first := token[0];
    if first == '*' then OperatorItem(Multiplication)
    else if first == '+' then OperatorItem(Addition)
    else NumberItem(ParseU64(token).value)
  }

  /** `to_vec`: no items for an empty line, otherwise one item per token, in order. */
  function ToVec(line: string): (items: seq<Item>)
    requires IsItemLine(line)
    ensures line == [] ==> items == []
    ensures |items| == |SplitWhitespace(line)|
    ensures forall i :: 0 <= i < |items| ==> items[i] == TokenItem(SplitWhitespace(line)[i])
  {
    if line == [] then []
    else
      var tokens := SplitWhitespace(line);
      seq(|tokens|, i requires 0 <= i < |tokens| => TokenItem(tokens[i]))
  }

  /** Text whose every line `to_vec` accepts. */
  predicate IsItemText(text: string) {
    forall line :: line in Lines(text) ==> IsItemLine(line)
  }

  /** `to_vec_of_vecs`: one row of items per line of the text, in order. */
  function ToVecOfVecs(text: string): (rows: seq<seq<Item>>)
    requires IsItemText(text)
    ensures |rows| == |Lines(text)|
    ensures forall i :: 0 <= i < |rows| ==> rows[i] == ToVec(Lines(text)[i])
  {
    var lines := Lines(text);
    seq(|lines|, i requires 0 <= i < |lines| => ToVec(lines[i]))
  }

  // ---------------------------------------------------------------------------
  // Writing items back as text: the inverse of to_vec
  // ---------------------------------------------------------------------------

  /** An item as written on the worksheet. */
  function Render(item: Item): string {
    match item
    case NumberItem(n) => ToDecimal(n)
    case OperatorItem(Addition) => "+"
    case OperatorItem(Multiplication) => "*"
  }

  function RenderAll(items: seq<Item>): (tokens: seq<string>)
    ensures |tokens| == |items|
    ensures forall i :: 0 <= i < |items| ==> tokens[i] == Render(items[i])
  {
    seq(|items|, i requires 0 <= i < |items| => Render(items[i]))
  }

  /** An item `to_vec` can produce: numbers fit in a `u64`. */
  predicate Representable(item: Item) {
    item.NumberItem? ==> item.number <= U64_MAX
  }

  /** A written item reads back as itself. */
  lemma TokenItemOfRender(item: Item)
    requires Representable(item)
    ensures Render(item) != [] && NoWhitespace(Render(item))
    ensures IsToken(Render(item)) && TokenItem(Render(item)) == item
  {
    if item.NumberItem? {
      var s := ToDecimal(item.number);
      ParseU64ToDecimal(item.number);
      assert IsDigit(s[0]);
      assert forall i :: 0 <= i < |s| ==> IsDigit(s[i]);
    }
  }

  /**
    `to_vec` reads back the items of a line written with any whitespace before the
    first item and between items.
  */
  lemma ToVecOfRendered(lead: string, items: seq<Item>, gaps: seq<string>)
    requires forall i :: 0 <= i < |items| ==> Representable(items[i])
    requires |gaps| == |items|
    requires AllWhitespace(lead)
    requires forall i :: 0 <= i < |gaps| ==> AllWhitespace(gaps[i])
    requires forall i :: 0 <= i < |gaps| - 1 ==> gaps[i] != []
    ensures IsItemLine(Spaced(lead, RenderAll(items), gaps))
    ensures ToVec(Spaced(lead, RenderAll(items), gaps)) == items
  {
    var tokens := RenderAll(items);
    forall i | 0 <= i < |items|
      ensures tokens[i] != [] && NoWhitespace(tokens[i]) && IsToken(tokens[i]) && TokenItem(tokens[i]) == items[i]
    {
      TokenItemOfRender(items[i]);
    }
    SplitWhitespaceSpaced(lead, tokens, gaps);
    var line := Spaced(lead, tokens, gaps);
    assert forall token :: token in SplitWhitespace(line) ==> IsToken(token);
  }

  /** `to_vec_of_vecs` reads back every line of a text written with `\r\n` endings, in order. */
  lemma ToVecOfVecsOfTerminated(lines: seq<string>)
    requires forall i :: 0 <= i < |lines| ==> '\n' !in lines[i] && '\r' !in lines[i]
    requires forall i :: 0 <= i < |lines| ==> IsItemLine(lines[i])
    ensures IsItemText(Terminated(lines))
    ensures |ToVecOfVecs(Terminated(lines))| == |lines|
    ensures forall i :: 0 <= i < |lines| ==> ToVecOfVecs(Terminated(lines))[i] == ToVec(lines[i])
  {
    LinesOfTerminated(lines);
  }

  // ---------------------------------------------------------------------------
  // The worksheet's arithmetic
  // ---------------------------------------------------------------------------

  /**
    What `grand_total` demands of the rows: at least one row, no row shorter than
    the first, and an operator in every column of the last row.
  */
  predicate IsSheet(rows: seq<seq<Item>>) {
    |rows| >= 1
    && (forall r :: 0 <= r < |rows| ==> |rows[r]| >= |rows[0]|)
    && OperatorsUpTo(rows[|rows| - 1], |rows[0]|)
  }

  predicate OperatorsUpTo(row: seq<Item>, n: nat)
    requires n <= |row|
  {
    forall c :: 0 <= c < n ==> row[c].OperatorItem?
  }

  /** Text whose rows `grand_total` can process without a panic. */
  predicate IsSheetText(text: string) {
    IsItemText(text) && IsSheet(ToVecOfVecs(text))
  }

  /** The numbers of column `column` among the first `upto` rows, top to bottom; operators are skipped. */
  function ColumnNumbers(rows: seq<seq<Item>>, column: nat, upto: nat): (numbers: seq<nat>)
    requires upto <= |rows| && forall r :: 0 <= r < upto ==> column < |rows[r]|
    ensures |numbers| <= upto
    decreases upto
  {
    if upto == 0 then []
    else
      var item := rows[upto - 1][column];
      ColumnNumbers(rows, column, upto - 1) + (if item.NumberItem? then [item.number] else [])
  }

  function Sum(xs: seq<nat>): nat {
    if xs == [] then 0 else Sum(xs[..|xs| - 1]) + xs[|xs| - 1]
  }

  function Product(xs: seq<nat>): nat {
    if xs == [] then 1 else Product(xs[..|xs| - 1]) * xs[|xs| - 1]
  }

  /** Folding one more row into a column's result: `+` or `*` on a number, nothing on an operator. */
  lemma ColumnValueStep(operator: Operator, rows: seq<seq<Item>>, column: nat, row: nat)
    requires row < |rows| && forall r :: 0 <= r <= row ==> column < |rows[r]|
    ensures ColumnValue(operator, ColumnNumbers(rows, column, row + 1)) ==
      match rows[row][column]
      case NumberItem(number) =>
        (match operator
         case Addition => ColumnValue(operator, ColumnNumbers(rows, column, row)) + number
         case Multiplication => ColumnValue(operator, ColumnNumbers(rows, column, row)) * number)
      case OperatorItem(_) => ColumnValue(operator, ColumnNumbers(rows, column, row))
  {
    var xs := ColumnNumbers(rows, column, row);
    var ys := ColumnNumbers(rows, column, row + 1);
    if rows[row][column].NumberItem? {
      assert ys[..|ys| - 1] == xs;
    } else {
      assert ys == xs;
    }
  }

  /** A column's result: the sum or the product of its numbers. */
  function ColumnValue(operator: Operator, numbers: seq<nat>): nat {
    match operator
    case Addition => Sum(numbers)
    case Multiplication => Product(numbers)
  }

  /** The result of column `column`, under the operator in the last row. */
  function ColumnTotal(rows: seq<seq<Item>>, column: nat): nat
    requires IsSheet(rows) && column < |rows[0]|
  {
    ColumnValue(rows[|rows| - 1][column].operator, ColumnNumbers(rows, column, |rows| - 1))
  }

  /** The results of the first `n` columns, added up. */
  function TotalOfColumns(rows: seq<seq<Item>>, n: nat): nat
    requires IsSheet(rows) && n <= |rows[0]|
  {
    if n == 0 then 0 else TotalOfColumns(rows, n - 1) + ColumnTotal(rows, n - 1)
  }

  /** The grand total: every column of the first row's width, added up. */
  function SheetTotal(rows: seq<seq<Item>>): nat
    requires IsSheet(rows)
  {
    TotalOfColumns(rows, |rows[0]|)
  }

  /**
    `grand_total`: reads the text into rows, then for each column starts from 0 or
    1 as the last row's operator says, folds the numbers above it into that start
    with `+` or `*`, skipping any operator items, and adds the column's result to
    the total.
  */
  method GrandTotal(lines: string) returns (result: nat)
    requires IsSheetText(lines)
    ensures result == SheetTotal(ToVecOfVecs(lines))
  {
    var vectors := ToVecOfVecs(lines);
    result := TotalOfRows(vectors);
  }

  /** The two loops of `grand_total`, over the rows already read. */
  method TotalOfRows(vectors: seq<seq<Item>>) returns (result: nat)
    requires IsSheet(vectors)
    ensures result == SheetTotal(vectors)
  {
    var column := 0;
    var row;
    var numberOfColumns := |vectors[0]|;
    var numberOfRows := |vectors|;
    result := 0;
    while column < numberOfColumns
      invariant column <= numberOfColumns
      invariant result == TotalOfColumns(vectors, column)
    {
      var operator := vectors[numberOfRows - 1][column];
      var columnResult: nat;
      match operator {
        case OperatorItem(Addition) => columnResult := 0;
        case OperatorItem(Multiplication) => columnResult := 1;
        case NumberItem(_) => assert false;
      }
      row := 0;
      while row < numberOfRows - 1
        invariant row <= numberOfRows - 1
        invariant columnResult == ColumnValue(operator.operator, ColumnNumbers(vectors, column, row))
      {
        ColumnValueStep(operator.operator, vectors, column, row);
        match operator {
          case OperatorItem(Addition) =>
            match vectors[row][column] {
              case NumberItem(number) => columnResult := columnResult + number;
              case _ =>
            }
          case OperatorItem(Multiplication) =>
            match vectors[row][column] {
              case NumberItem(number) => columnResult := columnResult * number;
              case _ =>
            }
          case _ =>
        }
        row := row + 1;
      }
      result := result + columnResult;
      column := column + 1;
    }
  }

  // ---------------------------------------------------------------------------
  // The unit tests
  // ---------------------------------------------------------------------------

  /** Four tokens spaced by three gaps, with nothing after the last token. */
  lemma SpacedFour(lead: string, tokens: seq<string>, gaps: seq<string>)
    requires |tokens| == 4 && |gaps| == 4 && gaps[3] == []
    ensures Spaced(lead, tokens, gaps)
         == lead + tokens[0] + gaps[0] + tokens[1] + gaps[1] + tokens[2] + gaps[2] + tokens[3]
  {
    var t1, g1 := tokens[1..], gaps[1..];
    var t2, g2 := t1[1..], g1[1..];
    var t3, g3 := t2[1..], g2[1..];
    assert Spaced(g2[0], t3, g3) == g2[0] + t3[0] + (g3[0] + []);
    assert g3[0] + [] == [];
    assert Spaced(g1[0], t2, g2) == g1[0] + t2[0] + Spaced(g2[0], t3, g3);
    assert Spaced(gaps[0], t1, g1) == gaps[0] + t1[0] + Spaced(g1[0], t2, g2);
  }

  /** Four items written with whitespace before them and non-empty whitespace between them read back as those items. */
  lemma ToVecOfFour(lead: string, a: Item, b: Item, c: Item, d: Item, g0: string, g1: string, g2: string)
    requires Representable(a) && Representable(b) && Representable(c) && Representable(d)
    requires AllWhitespace(lead) && AllWhitespace(g0) && AllWhitespace(g1) && AllWhitespace(g2)
    requires g0 != [] && g1 != [] && g2 != []
    ensures var line := lead + Render(a) + g0 + Render(b) + g1 + Render(c) + g2 + Render(d);
      IsItemLine(line) && ToVec(line) == [a, b, c, d]
  {
    var items, gaps := [a, b, c, d], [g0, g1, g2, ""];
    ToVecOfRendered(lead, items, gaps);
    SpacedFour(lead, RenderAll(items), gaps);
  }

  /** The first `to_vec` unit test line, piece by piece. */
  lemma NumberLineSpelled()
    ensures "123 328    51 64" == "" + "123" + " " + "328" + "    " + "51" + " " + "64"
  {
  }

  /** The numbers of the first `to_vec` unit test and of the first sample line, written out. */
  lemma FirstRowRendered()
    ensures Render(NumberItem(123)) == "123" && Render(NumberItem(328)) == "328"
    ensures Render(NumberItem(51)) == "51" && Render(NumberItem(64)) == "64"
  {
  }

  /** Unit test: a line of numbers, whatever the spacing. */
  lemma ToVecNumbersExample()
    ensures IsItemLine("123 328    51 64")
    ensures ToVec("123 328    51 64") == [NumberItem(123), NumberItem(328), NumberItem(51), NumberItem(64)]
  {
    NumberLineSpelled();
    FirstRowRendered();
    ToVecOfFour("", NumberItem(123), NumberItem(328), NumberItem(51), NumberItem(64), " ", "    ", " ");
  }

  /** Unit test: a line of operators. */
  lemma ToVecOperatorsExample()
    ensures IsItemLine("* +   *    +")
    ensures ToVec("* +   *    +")
         == [OperatorItem(Multiplication), OperatorItem(Addition), OperatorItem(Multiplication), OperatorItem(Addition)]
  {
    assert "* +   *    +" == "" + "*" + " " + "+" + "   " + "*" + "    " + "+";
    ToVecOfFour("", OperatorItem(Multiplication), OperatorItem(Addition), OperatorItem(Multiplication), OperatorItem(Addition),
                " ", "   ", "    ");
  }

  /** The rows of the sample worksheet. */
  function SampleSheet(): seq<seq<Item>> {
    [ [NumberItem(123), NumberItem(328), NumberItem(51), NumberItem(64)],
      [NumberItem(45), NumberItem(64), NumberItem(387), NumberItem(23)],
      [NumberItem(6), NumberItem(98), NumberItem(215), NumberItem(314)],
      [OperatorItem(Multiplication), OperatorItem(Addition), OperatorItem(Multiplication), OperatorItem(Addition)] ]
  }

  /** A column of three numbers above its operator adds or multiplies those three. */
  lemma ThreeNumberColumn(rows: seq<seq<Item>>, column: nat)
    requires IsSheet(rows) && |rows| == 4 && column < |rows[0]|
    requires rows[0][column].NumberItem? && rows[1][column].NumberItem? && rows[2][column].NumberItem?
    ensures ColumnTotal(rows, column) ==
      var (a, b, c) := (rows[0][column].number, rows[1][column].number, rows[2][column].number);
      match rows[3][column].operator
      case Addition => a + b + c
      case Multiplication => a * b * c
  {
    var (a, b, c) := (rows[0][column].number, rows[1][column].number, rows[2][column].number);
    assert ColumnNumbers(rows, column, 1) == [a];
    assert ColumnNumbers(rows, column, 2) == [a, b];
    var xs := ColumnNumbers(rows, column, 3);
    assert xs == [a, b, c];
    assert [a][..0] == [] && [a, b][..1] == [a] && [a, b, c][..2] == [a, b];
    assert Sum([a]) == a && Product([a]) == a;
    assert Sum([a, b]) == a + b && Product([a, b]) == a * b;
    assert Sum([a, b, c]) == a + b + c && Product([a, b, c]) == a * b * c;
  }

  /** Unit test: the sample worksheet's grand total. */
  lemma SampleSheetTotal()
    ensures IsSheet(SampleSheet()) && SheetTotal(SampleSheet()) == 4277556
  {
    var rows := SampleSheet();
    assert IsSheet(rows);
    ThreeNumberColumn(rows, 0);
    ThreeNumberColumn(rows, 1);
    ThreeNumberColumn(rows, 2);
    ThreeNumberColumn(rows, 3);
  }

  /** The lines of the sample worksheet. */
  function SampleLines(): seq<string> {
    ["123 328  51 64", "45 64  387 23", "6 98  215 314", "*   +   *   +"]
  }

  /** The first line of the sample worksheet, piece by piece. */
  lemma SampleFirstLineSpelled()
    ensures SampleLines()[0] == "" + "123" + " " + "328" + "  " + "51" + " " + "64"
  {
  }

  /** The first line of the sample worksheet. */
  lemma SampleFirstLine()
    ensures IsItemLine(SampleLines()[0]) && ToVec(SampleLines()[0]) == SampleSheet()[0]
  {
    SampleFirstLineSpelled();
    FirstRowRendered();
    ToVecOfFour("", NumberItem(123), NumberItem(328), NumberItem(51), NumberItem(64), " ", "  ", " ");
  }

  /** The second line of the sample worksheet, piece by piece. */
  lemma SampleSecondLineSpelled()
    ensures SampleLines()[1] == "" + "45" + " " + "64" + "  " + "387" + " " + "23"
  {
  }

  /** The numbers of the second sample line, written out. */
  lemma SecondRowRendered()
    ensures Render(NumberItem(45)) == "45" && Render(NumberItem(64)) == "64"
    ensures Render(NumberItem(387)) == "387" && Render(NumberItem(23)) == "23"
  {
  }

  /** The second line of the sample worksheet. */
  lemma SampleSecondLine()
    ensures IsItemLine(SampleLines()[1]) && ToVec(SampleLines()[1]) == SampleSheet()[1]
  {
    SampleSecondLineSpelled();
    SecondRowRendered();
    ToVecOfFour("", NumberItem(45), NumberItem(64), NumberItem(387), NumberItem(23), " ", "  ", " ");
  }

  /** The third line of the sample worksheet, piece by piece. */
  lemma SampleThirdLineSpelled()
    ensures SampleLines()[2] == "" + "6" + " " + "98" + "  " + "215" + " " + "314"
  {
  }

  /** The numbers of the third sample line, written out. */
  lemma ThirdRowRendered()
    ensures Render(NumberItem(6)) == "6" && Render(NumberItem(98)) == "98"
    ensures Render(NumberItem(215)) == "215" && Render(NumberItem(314)) == "314"
  {
  }

  /** The third line of the sample worksheet. */
  lemma SampleThirdLine()
    ensures IsItemLine(SampleLines()[2]) && ToVec(SampleLines()[2]) == SampleSheet()[2]
  {
    SampleThirdLineSpelled();
    ThirdRowRendered();
    ToVecOfFour("", NumberItem(6), NumberItem(98), NumberItem(215), NumberItem(314), " ", "  ", " ");
  }

  /** The operator line of the sample worksheet. */
  lemma SampleOperatorLine()
    ensures IsItemLine(SampleLines()[3]) && ToVec(SampleLines()[3]) == SampleSheet()[3]
  {
    assert SampleLines()[3] == "" + "*" + "   " + "+" + "   " + "*" + "   " + "+";
    ToVecOfFour("", OperatorItem(Multiplication), OperatorItem(Addition), OperatorItem(Multiplication), OperatorItem(Addition),
                "   ", "   ", "   ");
  }

  /** The sample worksheet as text, one segment per line, every line ended by `\r\n`. */
  function SampleText(): string {
    "123 328  51 64\r\n" + "45 64  387 23\r\n" + "6 98  215 314\r\n" + "*   +   *   +\r\n"
  }

  /** The sample text is its four lines, each ended by `\r\n`. */
  lemma SampleTextTerminated()
    ensures Terminated(SampleLines()) == SampleText()
  {
    var lines := SampleLines();
    TerminatedFour(lines[0], lines[1], lines[2], lines[3]);
    assert lines == [lines[0], lines[1], lines[2], lines[3]];
    assert lines[0] == "123 328  51 64" && lines[1] == "45 64  387 23";
    assert lines[2] == "6 98  215 314" && lines[3] == "*   +   *   +";
    assert "123 328  51 64" + "\r\n" == "123 328  51 64\r\n";
    assert "45 64  387 23" + "\r\n" == "45 64  387 23\r\n";
    assert "6 98  215 314" + "\r\n" == "6 98  215 314\r\n";
    assert "*   +   *   +" + "\r\n" == "*   +   *   +\r\n";
  }

  /** Four lines, each followed by `\r\n`. */
  lemma TerminatedFour(a: string, b: string, c: string, d: string)
    ensures Terminated([a, b, c, d]) == a + "\r\n" + (b + "\r\n" + (c + "\r\n" + (d + "\r\n")))
  {
    assert [a, b, c, d][1..] == [b, c, d] && [b, c, d][1..] == [c, d] && [c, d][1..] == [d] && [d][1..] == [];
    assert Terminated([d]) == d + "\r\n" + [];
    assert Terminated([c, d]) == c + "\r\n" + Terminated([d]);
    assert Terminated([b, c, d]) == b + "\r\n" + Terminated([c, d]);
    assert Terminated([a, b, c, d]) == a + "\r\n" + Terminated([b, c, d]);
  }

  /** Each sample line reads into its row of the sample worksheet. */
  lemma SampleLinesRead()
    ensures |SampleLines()| == |SampleSheet()|
    ensures forall i :: 0 <= i < |SampleLines()| ==> IsItemLine(SampleLines()[i])
    ensures forall i :: 0 <= i < |SampleLines()| ==> ToVec(SampleLines()[i]) == SampleSheet()[i]
  {
    forall i | 0 <= i < |SampleLines()|
      ensures IsItemLine(SampleLines()[i]) && ToVec(SampleLines()[i]) == SampleSheet()[i]
    {
      if i == 0 {
        SampleFirstLine();
      } else if i == 1 {
        SampleSecondLine();
      } else if i == 2 {
        SampleThirdLine();
      } else {
        SampleOperatorLine();
      }
    }
  }

  /** The sample lines hold no line breaks. */
  lemma SampleLinesUnbroken()
    ensures forall i :: 0 <= i < |SampleLines()| ==> '\n' !in SampleLines()[i] && '\r' !in SampleLines()[i]
  {
  }

  /** Rows read from lines ended by `\r\n` are the lines' items, in order. */
  lemma RowsOfTerminated(lines: seq<string>, rows: seq<seq<Item>>)
    requires forall i :: 0 <= i < |lines| ==> '\n' !in lines[i] && '\r' !in lines[i]
    requires forall i :: 0 <= i < |lines| ==> IsItemLine(lines[i])
    requires |rows| == |lines| && forall i :: 0 <= i < |lines| ==> ToVec(lines[i]) == rows[i]
    ensures IsItemText(Terminated(lines)) && ToVecOfVecs(Terminated(lines)) == rows
  {
    ToVecOfVecsOfTerminated(lines);
  }

  /** Unit test: `to_vec_of_vecs` reads the sample text into the sample rows. */
  lemma SampleTextRows()
    ensures IsSheetText(SampleText()) && ToVecOfVecs(SampleText()) == SampleSheet()
  {
    SampleTextTerminated();
    SampleLinesRead();
    SampleLinesUnbroken();
    RowsOfTerminated(SampleLines(), SampleSheet());
    SampleSheetTotal();
  }

  /** Unit test: the grand total of the sample text is 4277556. */
  lemma SampleGrandTotal()
    ensures IsSheetText(SampleText()) && SheetTotal(ToVecOfVecs(SampleText())) == 4277556
  {
    SampleTextRows();
    SampleSheetTotal();
  }
}
