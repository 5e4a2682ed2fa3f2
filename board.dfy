/** Win detection, click handling, status text and highlighting of the
    tic-tac-toe board (src/components/Board.tsx).

    A board is the row-major sequence of the N*N cells of an N-by-N grid.
    A "line" is a sequence of cell indices: a row, a column or a diagonal. */
module Board {

  /** The value of one cell; `Empty` stands for the source's `null`. */
  datatype Cell = Empty | X | O

  datatype Option<T> = None | Some(value: T)

  /** The symbol the player to move writes: 'X' when X is next, else 'O'. */
  function Mark(xIsNext: bool): (c: Cell)
    ensures c != Empty
  {
    if xIsNext then X else O
  }

  /** How a cell value prints inside a template string. */
  function Symbol(c: Cell): string
  {
    match c
    case X => "X"
    case O => "O"
    case Empty => "null"
  }

  /** A board of `size` empty cells (`Array(size).fill(null)`). */
  function EmptyBoard(size: nat): (b: seq<Cell>)
    ensures |b| == size
    ensures forall i :: 0 <= i < size ==> b[i] == Empty
  {
    seq(size, _ => Empty)
  }

  // ---------------------------------------------------------------------
  // The line set
  // ---------------------------------------------------------------------

  /** Row `i`: the indices i*n + j for j from 0 to n-1. */
  function Row(n: nat, i: int): seq<int>
  {
    seq(n, j => i * n + j)
  }

  /** Column `i`: the indices j*n + i for j from 0 to n-1. */
  function Column(n: nat, i: int): seq<int>
  {
    seq(n, j => j * n + i)
  }

  /** The main diagonal: i*n + i. */
  function Diagonal(n: nat): seq<int>
  {
    seq(n, i => i * n + i)
  }

  /** The anti-diagonal: i*n + n - 1 - i. */
  function AntiDiagonal(n: nat): seq<int>
  {
    seq(n, i => i * n + n - 1 - i)
  }

  /** The lines pushed by the first `k` rounds of the construction loop:
      row 0, column 0, row 1, column 1, ..., row k-1, column k-1. */
  function RowsAndColumns(n: nat, k: nat): seq<seq<int>>
  {
    if k == 0 then [] else RowsAndColumns(n, k - 1) + [Row(n, k - 1), Column(n, k - 1)]
  }

  /** Every index of every line lies in [0, len). */
  ghost predicate IndicesIn(lines: seq<seq<int>>, len: int)
  {
    forall k, t :: 0 <= k < |lines| && 0 <= t < |lines[k]| ==> 0 <= lines[k][t] < len
  }

  lemma ProductBound(n: nat, i: nat, j: nat)
    requires i < n && j < n
    ensures 0 <= i * n + j < n * n
  {
    assert i * n + j < i * n + n == (i + 1) * n;
    assert (i + 1) * n <= n * n;
  }

  lemma {:induction false} RowsAndColumnsShape(n: nat, k: nat)
    requires k <= n
    ensures |RowsAndColumns(n, k)| == 2 * k
    ensures forall m :: 0 <= m < 2 * k ==> |RowsAndColumns(n, k)[m]| == n
    ensures IndicesIn(RowsAndColumns(n, k), n * n)
  {
    if k > 0 {
      RowsAndColumnsShape(n, k - 1);
      var row, column := Row(n, k - 1), Column(n, k - 1);
      forall j | 0 <= j < n
        ensures 0 <= row[j] < n * n && 0 <= column[j] < n * n
      {
        ProductBound(n, k - 1, j);
        ProductBound(n, j, k - 1);
      }
    }
  }

  /** The line set of an n-by-n board, in the order the source builds it:
      rows and columns interleaved, then the diagonal, then the
      anti-diagonal. There are 2n+2 lines, each of n in-range indices. */
  function Lines(n: nat): (lines: seq<seq<int>>)
    ensures |lines| == 2 * n + 2
    ensures forall k :: 0 <= k < |lines| ==> |lines[k]| == n
    ensures IndicesIn(lines, n * n)
  {
    RowsAndColumnsShape(n, n);
    assert forall i :: 0 <= i < n ==> 0 <= Diagonal(n)[i] < n * n && 0 <= AntiDiagonal(n)[i] < n * n by {
      forall i | 0 <= i < n ensures 0 <= Diagonal(n)[i] < n * n && 0 <= AntiDiagonal(n)[i] < n * n {
        ProductBound(n, i, i);
        ProductBound(n, i, n - 1 - i);
      }
    }
    RowsAndColumns(n, n) + [Diagonal(n), AntiDiagonal(n)]
  }

  lemma {:induction false} RowsAndColumnsAt(n: nat, k: nat, i: nat)
    requires i < k
    ensures |RowsAndColumns(n, k)| == 2 * k
    ensures RowsAndColumns(n, k)[2 * i] == Row(n, i)
    ensures RowsAndColumns(n, k)[2 * i + 1] == Column(n, i)
  {
    if k - 1 == i {
      if k > 1 { RowsAndColumnsAt(n, k - 1, 0); }
    } else {
      RowsAndColumnsAt(n, k - 1, i);
    }
  }

  /** Where each line sits: line 2i is row i, line 2i+1 is column i,
      line 2n the diagonal and line 2n+1 the anti-diagonal. */
  lemma LinesAt(n: nat)
    ensures forall i :: 0 <= i < n ==> Lines(n)[2 * i] == Row(n, i) && Lines(n)[2 * i + 1] == Column(n, i)
    ensures Lines(n)[2 * n] == Diagonal(n)
    ensures Lines(n)[2 * n + 1] == AntiDiagonal(n)
  {
    forall i | 0 <= i < n
      ensures Lines(n)[2 * i] == Row(n, i) && Lines(n)[2 * i + 1] == Column(n, i)
    {
      RowsAndColumnsAt(n, n, i);
    }
    RowsAndColumnsShape(n, n);
  }

  /** The construction loop: per round i it pushes row i and column i,
      then it pushes the two diagonals. */
  method BuildLines(n: nat) returns (lines: seq<seq<int>>)
    ensures lines == Lines(n)
  {
    lines := [];
    var i := 0;
    while i < n
      invariant i <= n
      invariant lines == RowsAndColumns(n, i)
    {
      lines := lines + [Row(n, i), Column(n, i)];
      i := i + 1;
    }
    lines := lines + [Diagonal(n)];
    lines := lines + [AntiDiagonal(n)];
  }

  // ---------------------------------------------------------------------
  // The winner scan
  // ---------------------------------------------------------------------

  /** The scan returns at `line`: it has a second cell, and every cell
      after the first equals the first. Lines of fewer than two cells
      never return, because the inner loop starts at index 1. */
  ghost predicate Fires(squares: seq<Cell>, line: seq<int>)
    requires forall t :: 0 <= t < |line| ==> 0 <= line[t] < |squares|
  {
    |line| >= 2 && forall t :: 1 <= t < |line| ==> squares[line[t]] == squares[line[0]]
  }

  /** The value the scan returns over `lines`: the first cell of the first
      firing line, even when that cell is empty, or `Empty` when no line
      fires. */
  ghost function Scan(squares: seq<Cell>, lines: seq<seq<int>>): (w: Cell)
    requires IndicesIn(lines, |squares|)
    ensures w != Empty ==> exists k :: 0 <= k < |lines| && Fires(squares, lines[k]) && squares[lines[k][0]] == w
  {
    if lines == [] then Empty
    else if Fires(squares, lines[0]) then squares[lines[0][0]]
    else
      var w := Scan(squares, lines[1..]);
      assert w != Empty ==> exists k :: 1 <= k < |lines| && Fires(squares, lines[k]) && squares[lines[k][0]] == w by {
        if w != Empty {
          var k :| 0 <= k < |lines[1..]| && Fires(squares, lines[1..][k]) && squares[lines[1..][k][0]] == w;
          assert lines[1..][k] == lines[k + 1];
        }
      }
      w
  }

  /** The winner of an n-by-n board, as `useCalculateWinner` returns it:
      when not `Empty`, the common value of a line of at least two cells. */
  ghost function Winner(squares: seq<Cell>, n: nat): (w: Cell)
    requires |squares| == n * n
    ensures w != Empty ==> n >= 2 && exists k :: 0 <= k < |Lines(n)| && Fires(squares, Lines(n)[k]) && squares[Lines(n)[k][0]] == w
  {
    Scan(squares, Lines(n))
  }

  /** The scan's result is the value of the first firing line. */
  lemma {:induction false} ScanFirst(squares: seq<Cell>, lines: seq<seq<int>>, k: nat)
    requires IndicesIn(lines, |squares|)
    requires k < |lines| && Fires(squares, lines[k])
    requires forall j :: 0 <= j < k ==> !Fires(squares, lines[j])
    ensures Scan(squares, lines) == squares[lines[k][0]]
  {
    if k > 0 {
      assert !Fires(squares, lines[0]);
      assert forall j :: 0 <= j < k - 1 ==> lines[1..][j] == lines[j + 1];
      ScanFirst(squares, lines[1..], k - 1);
    }
  }

  /** When no line fires the scan returns `Empty`. */
  lemma ScanNone(squares: seq<Cell>, lines: seq<seq<int>>)
    requires IndicesIn(lines, |squares|)
    requires forall j :: 0 <= j < |lines| ==> !Fires(squares, lines[j])
    ensures Scan(squares, lines) == Empty
  {
  }

  /** The scan as the source runs it: an outer loop over the lines and an
      inner loop that breaks on the first cell differing from the line's
      first cell and returns when it reaches the line's last cell. */
  method CalculateWinner(squares: seq<Cell>, n: nat) returns (winner: Cell)
    requires |squares| == n * n
    ensures winner == Winner(squares, n)
  {
    var lines := BuildLines(n);
    var k := 0;
    while k < |lines|
      invariant 0 <= k <= |lines|
      invariant Scan(squares, lines[k..]) == Scan(squares, lines)
    {
      var line := lines[k];
      assert forall t :: 0 <= t < |line| ==> 0 <= line[t] < |squares|;
      var i := 1;
      while i < |line|
        invariant 1 <= i && (|line| >= 2 ==> i < |line|)
        invariant forall t :: 1 <= t < i && t < |line| ==> squares[line[t]] == squares[line[0]]
      {
        if squares[line[i]] != squares[line[0]] {
          break;
        }
        if i == |line| - 1 {
          winner := squares[line[0]];
          return;
        }
        i := i + 1;
      }
      assert !Fires(squares, line);
      assert lines[k..][1..] == lines[k + 1..];
      k := k + 1;
    }
    winner := Empty;
  }

  /** A non-empty winner is the common value of some line of the board. */
  lemma WinnerSound(squares: seq<Cell>, n: nat)
    requires |squares| == n * n
    requires Winner(squares, n) != Empty
    ensures n >= 2
    ensures exists k :: 0 <= k < 2 * n + 2 && forall t :: 0 <= t < n ==> squares[Lines(n)[k][t]] == Winner(squares, n)
  {
  }

  /** A board with no marks has no winner. */
  lemma EmptyBoardHasNoWinner(n: nat)
    ensures Winner(EmptyBoard(n * n), n) == Empty
  {
  }

  /** The scan quirk: an empty first row is an all-equal line that comes
      first, so no board whose first row is empty has a winner, whatever
      its other lines hold. */
  lemma EmptyFirstRowHidesEveryLine(squares: seq<Cell>, n: nat)
    requires |squares| == n * n
    requires forall j :: 0 <= j < n ==> squares[j] == Empty
    ensures Winner(squares, n) == Empty
  {
    if n >= 1 {
      LinesAt(n);
      assert Lines(n)[0] == Row(n, 0);
      if n >= 2 {
        ScanFirst(squares, Lines(n), 0);
      } else {
        ScanNone(squares, Lines(n));
      }
    }
  }

  /** On a 1-by-1 board every line has one cell, so nothing ever wins. */
  lemma SingleCellBoardNeverWins(squares: seq<Cell>)
    requires |squares| == 1
    ensures Winner(squares, 1) == Empty
  {
  }

  // ---------------------------------------------------------------------
  // Clicks, status and highlighting
  // ---------------------------------------------------------------------

  /** `handleClick`: ignored (None) when the cell is taken or a winner
      exists; otherwise the board with the cell set to the mover's symbol. */
  function HandleClick(squares: seq<Cell>, index: int, xIsNext: bool, winner: Cell): (r: Option<seq<Cell>>)
    requires 0 <= index < |squares|
    ensures r.None? <==> squares[index] != Empty || winner != Empty
    ensures r.Some? ==> |r.value| == |squares| && r.value[index] == Mark(xIsNext)
    ensures r.Some? ==> forall i :: 0 <= i < |squares| && i != index ==> r.value[i] == squares[i]
  {
    if squares[index] != Empty || winner != Empty then None
    else Some(squares[index := Mark(xIsNext)])
  }

  /** The number of cells of `b` holding `c`. */
  function Count(b: seq<Cell>, c: Cell): (r: nat)
    ensures r <= |b|
  {
    if b == [] then 0 else (if b[0] == c then 1 else 0) + Count(b[1..], c)
  }

  /** A cell value occurs in a board exactly when its count is positive. */
  lemma {:induction false} CountPositive(b: seq<Cell>, c: Cell)
    ensures Count(b, c) > 0 <==> exists i :: 0 <= i < |b| && b[i] == c
  {
    if b != [] {
      CountPositive(b[1..], c);
      if exists i :: 0 <= i < |b[1..]| && b[1..][i] == c {
        var i :| 0 <= i < |b[1..]| && b[1..][i] == c;
        assert b[i + 1] == c;
      }
      if exists i :: 0 <= i < |b| && b[i] == c {
        var i :| 0 <= i < |b| && b[i] == c;
        if i > 0 { assert b[1..][i - 1] == c; }
      }
    }
  }

  /** `squares.every(Boolean)`: no cell is empty, that is, the board holds
      no `Empty` at all. */
  function AllFilled(squares: seq<Cell>): (r: bool)
    ensures r <==> Count(squares, Empty) == 0
  {
    CountPositive(squares, Empty);
    forall i :: 0 <= i < |squares| ==> squares[i] != Empty
  }

  /** What the status line reports. */
  datatype Outcome = Won(symbol: Cell) | Draw | Turn(symbol: Cell)

  /** The decision made by the status expression: a winner is reported
      whenever there is one, a draw only on a full board, and otherwise the
      player to move; a reported symbol is never empty. */
  function StatusOutcome(winner: Cell, squares: seq<Cell>, xIsNext: bool): (o: Outcome)
    ensures o.Won? <==> winner != Empty
    ensures o.Draw? <==> winner == Empty && AllFilled(squares)
    ensures !o.Draw? ==> o.symbol != Empty
    ensures o.Turn? ==> o.symbol == Mark(xIsNext)
  {
    if winner != Empty then Won(winner)
    else if AllFilled(squares) then Draw
    else Turn(Mark(xIsNext))
  }

  /** The text shown for an outcome. */
  function StatusText(o: Outcome): string
  {
    match o
    case Won(w) => "Winner: " + Symbol(w)
    case Draw => "It's a draw!"
    case Turn(p) => "Next player: " + Symbol(p)
  }

  /** The status string above the grid. It reads "It's a draw!" exactly
      when there is no winner and the board is full, and starts with
      "Winner: " exactly when there is a winner. */
  function Status(winner: Cell, squares: seq<Cell>, xIsNext: bool): (s: string)
    ensures s == "It's a draw!" <==> winner == Empty && AllFilled(squares)
    ensures (|s| >= 8 && s[..8] == "Winner: ") <==> winner != Empty
  {
    var o := StatusOutcome(winner, squares, xIsNext);
    var text := StatusText(o);
    assert text[0] == (if o.Won? then 'W' else if o.Draw? then 'I' else 'N');
    assert o.Won? ==> text[..8] == "Winner: ";
    assert !o.Won? ==> text[..8] != "Winner: " by {
      if !o.Won? { assert text[..8][0] != "Winner: "[0]; }
    }
    text
  }

  /** Different outcomes print differently: the status text tells which
      outcome holds, and with which symbol. */
  lemma StatusTextInjective(a: Outcome, b: Outcome)
    requires StatusText(a) == StatusText(b)
    ensures a == b
  {
    var s := StatusText(a);
    assert s[0] == StatusText(b)[0];
    match a
    case Won(w) =>
      assert b.Won?;
      assert s[8..] == Symbol(w) == Symbol(b.symbol);
    case Draw =>
    case Turn(p) =>
      assert b.Turn?;
      assert s[13..] == Symbol(p) == Symbol(b.symbol);
  }

  /** The status and the click handler agree: a click is taken exactly
      when the status names a player to move and the cell is free, and
      the symbol placed is the one the status names. */
  lemma StatusAgreesWithClick(squares: seq<Cell>, index: int, xIsNext: bool, winner: Cell)
    requires 0 <= index < |squares|
    ensures HandleClick(squares, index, xIsNext, winner).Some? <==>
      StatusOutcome(winner, squares, xIsNext).Turn? && squares[index] == Empty
    ensures HandleClick(squares, index, xIsNext, winner).Some? ==>
      HandleClick(squares, index, xIsNext, winner).value[index] == StatusOutcome(winner, squares, xIsNext).symbol
  {
  }

  /** A full board on which no line is all-equal is a draw. */
  lemma DrawWhenNoLineFires(squares: seq<Cell>, n: nat, xIsNext: bool)
    requires |squares| == n * n && AllFilled(squares)
    requires forall k :: 0 <= k < |Lines(n)| ==> !Fires(squares, Lines(n)[k])
    ensures Status(Winner(squares, n), squares, xIsNext) == "It's a draw!"
  {
  }

  /** An empty board of at least one cell asks X to move. */
  lemma EmptyBoardStatus(n: nat)
    requires n >= 1
    ensures Status(Winner(EmptyBoard(n * n), n), EmptyBoard(n * n), true) == "Next player: X"
  {
    EmptyBoardHasNoWinner(n);
    assert EmptyBoard(n * n)[0] == Empty;
  }

  /** The `highlight` flag of a cell holding `value`. */
  function Highlight(winner: Cell, value: Cell): (h: bool)
    ensures h ==> value != Empty
  {
    winner != Empty && winner == value
  }

  /** When there is a winner, every cell of a line holding the winner's
      symbol is highlighted. */
  lemma HighlightCoversWinningLine(squares: seq<Cell>, n: nat)
    requires |squares| == n * n
    requires Winner(squares, n) != Empty
    ensures exists k :: 0 <= k < 2 * n + 2 && forall t :: 0 <= t < n ==> Highlight(Winner(squares, n), squares[Lines(n)[k][t]])
  {
  }

  // ---------------------------------------------------------------------
  // Concrete 3-by-3 positions
  // ---------------------------------------------------------------------

  lemma LinesOfThree()
    ensures Lines(3) == [[0, 1, 2], [0, 3, 6], [3, 4, 5], [1, 4, 7], [6, 7, 8], [2, 5, 8], [0, 4, 8], [2, 4, 6]]
  {
    LinesAt(3);
    assert Row(3, 0) == [0, 1, 2] && Column(3, 0) == [0, 3, 6];
    assert Row(3, 1) == [3, 4, 5] && Column(3, 1) == [1, 4, 7];
    assert Row(3, 2) == [6, 7, 8] && Column(3, 2) == [2, 5, 8];
    assert Diagonal(3) == [0, 4, 8] && AntiDiagonal(3) == [2, 4, 6];
  }

  /** X at 0, O at 4, X at 8: no line is complete and O is to move. */
  lemma NoWinnerAfterThreeMoves()
    ensures Winner([X, Empty, Empty, Empty, O, Empty, Empty, Empty, X], 3) == Empty
    ensures Status(Winner([X, Empty, Empty, Empty, O, Empty, Empty, Empty, X], 3),
                   [X, Empty, Empty, Empty, O, Empty, Empty, Empty, X], false) == "Next player: O"
  {
    var squares := [X, Empty, Empty, Empty, O, Empty, Empty, Empty, X];
    LinesOfThree();
    forall j | 0 <= j < |Lines(3)| ensures !Fires(squares, Lines(3)[j]) {
      var line := Lines(3)[j];
      assert squares[line[1]] != squares[line[0]] || squares[line[2]] != squares[line[0]];
    }
    ScanNone(squares, Lines(3));
    assert Winner(squares, 3) == Empty;
    assert !AllFilled(squares) by {
      assert squares[1] == Empty;
    }
    assert StatusOutcome(Empty, squares, false) == Turn(O);
  }

  /** X completes the top row: X wins and the row's cells are highlighted. */
  lemma TopRowWins()
    ensures Winner([X, X, X, O, O, Empty, Empty, Empty, Empty], 3) == X
    ensures Status(X, [X, X, X, O, O, Empty, Empty, Empty, Empty], true) == "Winner: X"
  {
  }

  /** The scan quirk: X holds the middle row, but the empty top row is an
      all-equal line that comes first, so the scan ends there with no
      winner. */
  lemma EmptyTopRowHidesMiddleRow()
    ensures Fires([Empty, Empty, Empty, X, X, X, O, O, Empty], Lines(3)[0])
    ensures forall t :: 0 <= t < 3 ==> [Empty, Empty, Empty, X, X, X, O, O, Empty][Lines(3)[2][t]] == X
    ensures Winner([Empty, Empty, Empty, X, X, X, O, O, Empty], 3) == Empty
  {
    LinesOfThree();
  }

  /** The position above is reached by clicks from the empty board: X 3,
      O 6, X 4, O 7, X 5, each accepted by the click handler with the
      scanned winner of the board it is made on. */
  lemma MiddleRowPositionReachable()
    ensures var boards := [EmptyBoard(9),
                           [Empty, Empty, Empty, X, Empty, Empty, Empty, Empty, Empty],
                           [Empty, Empty, Empty, X, Empty, Empty, O, Empty, Empty],
                           [Empty, Empty, Empty, X, X, Empty, O, Empty, Empty],
                           [Empty, Empty, Empty, X, X, Empty, O, O, Empty],
                           [Empty, Empty, Empty, X, X, X, O, O, Empty]];
            var moves := [3, 6, 4, 7, 5];
            forall k :: 0 <= k < 5 ==>
              HandleClick(boards[k], moves[k], k % 2 == 0, Winner(boards[k], 3)) == Some(boards[k + 1])
  {
    var boards := [EmptyBoard(9),
                   [Empty, Empty, Empty, X, Empty, Empty, Empty, Empty, Empty],
                   [Empty, Empty, Empty, X, Empty, Empty, O, Empty, Empty],
                   [Empty, Empty, Empty, X, X, Empty, O, Empty, Empty],
                   [Empty, Empty, Empty, X, X, Empty, O, O, Empty],
                   [Empty, Empty, Empty, X, X, X, O, O, Empty]];
    var moves := [3, 6, 4, 7, 5];
    forall k | 0 <= k < 5
      ensures HandleClick(boards[k], moves[k], k % 2 == 0, Winner(boards[k], 3)) == Some(boards[k + 1])
    {
      EmptyFirstRowHidesEveryLine(boards[k], 3);
      assert boards[k][moves[k] := Mark(k % 2 == 0)] == boards[k + 1];
    }
  }

  /** Highlighting marks every cell holding the winner's symbol: after
      X 0, O 3, X 4, O 5, X 1, O 6, X 2 the top row wins, and the X at
      cell 4, which is on no line held wholly by X, is highlighted too. */
  lemma HighlightReachesOffLineCells()
    ensures Fires([X, X, X, O, X, O, O, Empty, Empty], Lines(3)[0])
    ensures Winner([X, X, X, O, X, O, O, Empty, Empty], 3) == X
    ensures forall k :: 0 <= k < |Lines(3)| && 4 in Lines(3)[k] ==>
      !(forall t :: 0 <= t < 3 ==> [X, X, X, O, X, O, O, Empty, Empty][Lines(3)[k][t]] == X)
    ensures Highlight(X, [X, X, X, O, X, O, O, Empty, Empty][4])
  {
    var b := [X, X, X, O, X, O, O, Empty, Empty];
    LinesOfThree();
    forall k | 0 <= k < |Lines(3)| && 4 in Lines(3)[k]
      ensures !(forall t :: 0 <= t < 3 ==> b[Lines(3)[k][t]] == X)
    {
      assert k in {2, 3, 6, 7};
      if k == 2 { assert b[Lines(3)[k][0]] == O; }
      else if k == 3 { assert b[Lines(3)[k][2]] == Empty; }
      else if k == 6 { assert b[Lines(3)[k][2]] == Empty; }
      else { assert b[Lines(3)[k][2]] == O; }
    }
  }
}
