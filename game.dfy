/** The game: a history of board snapshots, the index of the displayed
    snapshot, the board size, and the list of history labels with its
    sort order (src/components/Game.tsx).

    The transitions are stated as functions on `GameState`; the class
    `Game` holds the same state in fields and its methods update them. */
module Game {
  import opened Board
  import opened Decimal

  datatype GameState = GameState(history: seq<seq<Cell>>, currentMove: nat, boardSize: nat)

  /** History is never empty and currentMove names one of its entries. */
  ghost predicate Valid(s: GameState)
  {
    |s.history| > 0 && s.currentMove < |s.history|
  }

  /** Every snapshot has boardSize * boardSize cells. */
  ghost predicate Sized(s: GameState)
  {
    forall k :: 0 <= k < |s.history| ==> |s.history[k]| == s.boardSize * s.boardSize
  }

  /** The snapshots are those of alternating play from an empty board:
      entry k holds ceil(k/2) X's and floor(k/2) O's. */
  ghost predicate WellPlayed(s: GameState)
  {
    Sized(s) &&
    forall k :: 0 <= k < |s.history| ==>
      Count(s.history[k], X) == (k + 1) / 2 && Count(s.history[k], O) == k / 2
  }

  /** The state on first render: one empty 3-by-3 board, currentMove 0. */
  function Initial(): (s: GameState)
    ensures Valid(s) && WellPlayed(s)
    ensures |s.history| == 1 && |s.history[0]| == 9 && s.currentMove == 0 && s.boardSize == 3
  {
    CountEmptyBoard(9);
    GameState([EmptyBoard(9)], 0, 3)
  }

  /** `xIsNext`: X moves on even positions. */
  function XIsNext(s: GameState): bool
  {
    s.currentMove % 2 == 0
  }

  /** `currentSquares`: the displayed snapshot. */
  function CurrentSquares(s: GameState): seq<Cell>
    requires Valid(s)
  {
    s.history[s.currentMove]
  }

  /** `handlePlay`: keep entries 0..currentMove, append the new board and
      point at it. */
  function Played(s: GameState, nextSquares: seq<Cell>): (r: GameState)
    requires Valid(s)
    ensures Valid(r) && r.boardSize == s.boardSize
    ensures |r.history| == s.currentMove + 2 && r.currentMove == s.currentMove + 1
    ensures forall k :: 0 <= k <= s.currentMove ==> r.history[k] == s.history[k]
    ensures CurrentSquares(r) == nextSquares
    ensures XIsNext(r) == !XIsNext(s)
  {
    var nextHistory := s.history[..s.currentMove + 1] + [nextSquares];
    GameState(nextHistory, |nextHistory| - 1, s.boardSize)
  }

  /** `jumpTo`: move currentMove, nothing else. */
  function Jumped(s: GameState, move: nat): (r: GameState)
    ensures r.history == s.history && r.boardSize == s.boardSize && r.currentMove == move
    ensures Valid(s) ==> (Valid(r) <==> move < |s.history|)
    ensures WellPlayed(r) <==> WellPlayed(s)
  {
    s.(currentMove := move)
  }

  /** `handleBoardSizeChange`: a fresh game on a newSize-by-newSize board. */
  function Resized(s: GameState, newSize: nat): (r: GameState)
    ensures Valid(r) && WellPlayed(r)
    ensures r.boardSize == newSize && |r.history| == 1 && r.currentMove == 0
    ensures forall i :: 0 <= i < newSize * newSize ==> CurrentSquares(r)[i] == Empty
  {
    CountEmptyBoard(newSize * newSize);
    GameState([EmptyBoard(newSize * newSize)], 0, newSize)
  }

  /** The effect run when the board size changes: reset history to one
      empty board of the current size. */
  function Reset(s: GameState): (r: GameState)
    ensures r == Resized(s, s.boardSize)
  {
    GameState([EmptyBoard(s.boardSize * s.boardSize)], 0, s.boardSize)
  }

  lemma {:induction false} CountEmptyBoard(size: nat)
    ensures Count(EmptyBoard(size), X) == 0 && Count(EmptyBoard(size), O) == 0
  {
    if size > 0 {
      assert EmptyBoard(size)[1..] == EmptyBoard(size - 1);
      CountEmptyBoard(size - 1);
    }
  }

  /** Writing `v` into cell i changes the count of `c` by what left and
      what arrived. */
  lemma {:induction false} CountUpdate(b: seq<Cell>, i: nat, v: Cell, c: Cell)
    requires i < |b|
    ensures Count(b[i := v], c) + (if b[i] == c then 1 else 0) == Count(b, c) + (if v == c then 1 else 0)
  {
    if i == 0 {
      assert b[i := v][1..] == b[1..];
    } else {
      assert b[i := v][1..] == b[1..][i - 1 := v];
      CountUpdate(b[1..], i - 1, v, c);
    }
  }

  /** Jumping to an entry and playing there keeps entries 0..k, drops the
      rest and appends exactly one entry. */
  lemma JumpThenPlay(s: GameState, k: nat, nextSquares: seq<Cell>)
    requires Valid(s) && k < |s.history|
    ensures Played(Jumped(s, k), nextSquares).history == s.history[..k + 1] + [nextSquares]
    ensures |Played(Jumped(s, k), nextSquares).history| == k + 2
  {
  }

  /** Running the reset effect after a resize, or twice, changes nothing. */
  lemma ResetIdempotent(s: GameState, newSize: nat)
    ensures Reset(Resized(s, newSize)) == Resized(s, newSize)
    ensures Reset(Reset(s)) == Reset(s)
  {
  }

  /** A click accepted on the displayed board keeps the history well
      played: the new entry has one more mark, of the mover's symbol. */
  lemma ClickPreservesWellPlayed(s: GameState, index: int)
    requires Valid(s) && WellPlayed(s)
    requires 0 <= index < |CurrentSquares(s)|
    ensures var squares := CurrentSquares(s);
      var next := HandleClick(squares, index, XIsNext(s), Winner(squares, s.boardSize));
      next.Some? ==> WellPlayed(Played(s, next.value))
  {
    var squares := CurrentSquares(s);
    var next := HandleClick(squares, index, XIsNext(s), Winner(squares, s.boardSize));
    if next.Some? {
      var r := Played(s, next.value);
      var m := s.currentMove;
      assert next.value == squares[index := Mark(XIsNext(s))];
      CountUpdate(squares, index, Mark(XIsNext(s)), X);
      CountUpdate(squares, index, Mark(XIsNext(s)), O);
      assert r.history[m + 1] == next.value;
      forall k | 0 <= k < |r.history|
        ensures |r.history[k]| == r.boardSize * r.boardSize
        ensures Count(r.history[k], X) == (k + 1) / 2 && Count(r.history[k], O) == k / 2
      {
        if k <= m {
          assert r.history[k] == s.history[k];
        }
      }
    }
  }

  /** On a well-played history the turn indicator agrees with the board:
      X is next exactly when both players have made as many moves. */
  lemma TurnMatchesMarks(s: GameState)
    requires Valid(s) && WellPlayed(s)
    ensures XIsNext(s) <==> Count(CurrentSquares(s), X) == Count(CurrentSquares(s), O)
    ensures Count(CurrentSquares(s), X) - Count(CurrentSquares(s), O) in {0, 1}
  {
  }

  // ---------------------------------------------------------------------
  // History labels
  // ---------------------------------------------------------------------

  const YouAreAt := "You are at move #"
  const GoToMove := "Go to move #"
  const GoToStart := "Go to game start"

  /** The label of history entry `move`, by its 0-based index. */
  function Label(move: nat, currentMove: nat): string
  {
    if move == currentMove then YouAreAt + NatToString(move)
    else if move > 0 then GoToMove + NatToString(move)
    else GoToStart
  }

  /** The labels of all history entries, ascending by index. */
  function Labels(history: seq<seq<Cell>>, currentMove: nat): seq<string>
  {
    seq(|history|, m requires 0 <= m => Label(m, currentMove))
  }

  /** What a label says: the entry it stands for and whether it is the
      displayed one. */
  datatype LabelInfo = LabelInfo(move: nat, current: bool)

  /** Reads a label back. */
  function ParseLabel(s: string): Option<LabelInfo>
  {
    if s == GoToStart then Some(LabelInfo(0, false))
    else if |YouAreAt| < |s| && s[..|YouAreAt|] == YouAreAt && AllDigits(s[|YouAreAt|..]) then
      Some(LabelInfo(ParseNat(s[|YouAreAt|..]), true))
    else if |GoToMove| < |s| && s[..|GoToMove|] == GoToMove && AllDigits(s[|GoToMove|..]) then
      Some(LabelInfo(ParseNat(s[|GoToMove|..]), false))
    else None
  }

  /** A label names its entry and says whether it is the current one. */
  lemma LabelRoundTrip(move: nat, currentMove: nat)
    ensures ParseLabel(Label(move, currentMove)) == Some(LabelInfo(move, move == currentMove))
  {
    var digits := NatToString(move);
    ParseNatToString(move);
    if move == currentMove {
      var s := YouAreAt + digits;
      assert s[0] == 'Y';
      assert s[..|YouAreAt|] == YouAreAt && s[|YouAreAt|..] == digits;
    } else if move > 0 {
      var s := GoToMove + digits;
      assert s[6] == 'm' && s[0] == 'G';
      assert s[..|GoToMove|] == GoToMove && s[|GoToMove|..] == digits;
    }
  }

  /** There is one label per history entry, in ascending order, and
      exactly the current entry's label says "You are at move". */
  lemma LabelsIdentifyEntries(history: seq<seq<Cell>>, currentMove: nat)
    ensures |Labels(history, currentMove)| == |history|
    ensures forall m :: 0 <= m < |history| ==>
      ParseLabel(Labels(history, currentMove)[m]) == Some(LabelInfo(m, m == currentMove))
  {
    forall m | 0 <= m < |history|
      ensures ParseLabel(Labels(history, currentMove)[m]) == Some(LabelInfo(m, m == currentMove))
    {
      LabelRoundTrip(m, currentMove);
    }
  }

  /** Different entries get different labels. */
  lemma LabelsDistinct(history: seq<seq<Cell>>, currentMove: nat, i: nat, j: nat)
    requires i < j < |history|
    ensures Labels(history, currentMove)[i] != Labels(history, currentMove)[j]
  {
    LabelRoundTrip(i, currentMove);
    LabelRoundTrip(j, currentMove);
  }

  // ---------------------------------------------------------------------
  // Sort order of the label list
  // ---------------------------------------------------------------------

  datatype Order = Asc | Desc

  function Toggled(o: Order): (r: Order)
    ensures r != o
  {
    if o == Asc then Desc else Asc
  }

  /** `slice().reverse()`: the same elements, last first. */
  function Reverse<T>(s: seq<T>): (r: seq<T>)
    ensures |r| == |s|
    ensures forall i :: 0 <= i < |s| ==> r[i] == s[|s| - 1 - i]
  {
    if s == [] then [] else Reverse(s[1..]) + [s[0]]
  }

  /** Toggling the order twice restores both the order and the list. */
  lemma ToggleTwiceRestores<T>(o: Order, s: seq<T>)
    ensures Toggled(Toggled(o)) == o
    ensures Reverse(Reverse(s)) == s
  {
  }

  // ---------------------------------------------------------------------
  // The component's state
  // ---------------------------------------------------------------------

  class Game {
    var history: seq<seq<Cell>>
    var historyOrder: Order
    var historyMoves: seq<string>
    var currentMove: nat
    var boardSize: nat

    function State(): GameState
      reads this
    {
      GameState(history, currentMove, boardSize)
    }

    constructor ()
      ensures State() == Initial()
      ensures historyOrder == Asc && historyMoves == []
    {
      history := [EmptyBoard(9)];
      historyOrder := Asc;
      historyMoves := [];
      currentMove := 0;
      boardSize := 3;
    }

    /** `handlePlay`. */
    method HandlePlay(nextSquares: seq<Cell>)
      requires Valid(State())
      modifies this
      ensures State() == Played(old(State()), nextSquares)
      ensures historyOrder == old(historyOrder) && historyMoves == old(historyMoves)
    {
      var nextHistory := history[..currentMove + 1] + [nextSquares];
      history := nextHistory;
      currentMove := |nextHistory| - 1;
    }

    /** `jumpTo`. */
    method JumpTo(move: nat)
      modifies this
      ensures State() == Jumped(old(State()), move)
      ensures historyOrder == old(historyOrder) && historyMoves == old(historyMoves)
    {
      currentMove := move;
    }

    /** `handleBoardSizeChange`. */
    method HandleBoardSizeChange(newSize: nat)
      modifies this
      ensures State() == Resized(old(State()), newSize)
      ensures historyOrder == old(historyOrder) && historyMoves == old(historyMoves)
    {
      boardSize := newSize;
      history := [EmptyBoard(newSize * newSize)];
      currentMove := 0;
    }

    /** The effect keyed on the board size. */
    method ResetForBoardSize()
      modifies this
      ensures State() == Reset(old(State()))
      ensures historyOrder == old(historyOrder) && historyMoves == old(historyMoves)
    {
      history := [EmptyBoard(boardSize * boardSize)];
      currentMove := 0;
    }

    /** The effect keyed on history and currentMove: rebuild the labels in
        ascending order. */
    method RefreshHistoryMoves()
      modifies this
      ensures historyMoves == Labels(history, currentMove)
      ensures State() == old(State()) && historyOrder == old(historyOrder)
    {
      historyMoves := Labels(history, currentMove);
    }

    /** The sort toggle together with the effect keyed on the order: flip
        the order and reverse the current label list. */
    method ToggleHistoryOrder()
      modifies this
      ensures historyOrder == Toggled(old(historyOrder))
      ensures historyMoves == Reverse(old(historyMoves))
      ensures State() == old(State())
    {
      historyOrder := if historyOrder == Asc then Desc else Asc;
      historyMoves := Reverse(historyMoves);
    }

    /** A click on cell `index` of the displayed board: the board's click
        handler, fed the scanned winner and the turn, and `handlePlay`
        when the click is taken. */
    method ClickSquare(index: int) returns (played: bool)
      requires Valid(State()) && Sized(State())
      requires 0 <= index < |CurrentSquares(State())|
      modifies this
      ensures var before := old(State());
        var squares := CurrentSquares(before);
        var next := HandleClick(squares, index, XIsNext(before), Winner(squares, before.boardSize));
        played == next.Some? && State() == if next.Some? then Played(before, next.value) else before
      ensures Sized(State())
      ensures old(WellPlayed(State())) ==> WellPlayed(State())
      ensures historyOrder == old(historyOrder) && historyMoves == old(historyMoves)
    {
      var squares := history[currentMove];
      var xIsNext := currentMove % 2 == 0;
      var winner := CalculateWinner(squares, boardSize);
      var next := HandleClick(squares, index, xIsNext, winner);
      played := next.Some?;
      ghost var before := State();
      if played {
        if WellPlayed(before) {
          ClickPreservesWellPlayed(before, index);
        }
        HandlePlay(next.value);
        assert forall k :: 0 <= k <= before.currentMove ==> history[k] == before.history[k];
      }
    }
  }
}
