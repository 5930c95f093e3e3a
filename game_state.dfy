/**
 * `GameState` (src/GameState.cpp, include/GameState.hpp:8-51): a 20 by 20
 * board of `Player` cells stored row by row, plus the history of moves made
 * with `play`. The class keeps the board in an array and the history in a
 * sequence; each mutator is proved against a function on `State`, the pair
 * of the board's contents and the history.
 */
module Board {
  import opened Lines

  /** `GameState::Move`: an (x, y) pair. */
  type Move = (int, int)

  datatype State = State(cells: seq<Player>, history: seq<Move>)

  /** A state the class can be in: 400 cells, and every move in the history on the board. */
  predicate WellFormed(s: State)
  {
    |s.cells| == CellCount && forall i :: 0 <= i < |s.history| ==> OnBoard(s.history[i].0, s.history[i].1)
  }

  /** The state of a new `GameState`, whatever size was asked for: every cell empty, no history. */
  function Initial(): (s: State)
    ensures WellFormed(s)
  {
    State(seq(CellCount, _ => None), [])
  }

  /**
   * `currentPlayer`: with a history, One after an even number of moves and
   * Two after an odd number; with none, One when both players have as many
   * stones, otherwise Two (even when Two has more stones).
   */
  function Turn(s: State): Player
  {
    if |s.history| > 0 then (if |s.history| % 2 == 0 then One else Two)
    else if multiset(s.cells)[One] == multiset(s.cells)[Two] then One
    else Two
  }

  /** `play`: refused off the board or on a taken cell; otherwise the cell is set and the move recorded. */
  function PlayState(s: State, x: int, y: int, p: Player): (r: (bool, State))
    requires WellFormed(s)
    ensures WellFormed(r.1)
  {
    if !OnBoard(x, y) || At(s.cells, x, y) != None then (false, s)
    else (true, State(s.cells[Index(x, y) := p], s.history + [(x, y)]))
  }

  /** `undo`: nothing without a history; otherwise the last move's cell is emptied and the move dropped. */
  function UndoState(s: State): (r: State)
    requires WellFormed(s)
    ensures WellFormed(r)
  {
    if |s.history| == 0 then s
    else
      var last := s.history[|s.history| - 1];
      State(s.cells[Index(last.0, last.1) := None], s.history[..|s.history| - 1])
  }

  /** `set(x, y, Player)`: off-board coordinates are ignored; the history is never touched. */
  function SetState(s: State, x: int, y: int, p: Player): (r: State)
    requires WellFormed(s)
    ensures WellFormed(r)
  {
    if OnBoard(x, y) then State(s.cells[Index(x, y) := p], s.history) else s
  }

  /** `set(x, y, int)`: refused off the board or for a code outside 0..2; the history is never touched. */
  function SetCodeState(s: State, x: int, y: int, code: int): (r: (bool, State))
    requires WellFormed(s)
    ensures WellFormed(r.1)
  {
    if !OnBoard(x, y) || code < 0 || code > 2 then (false, s)
    else (true, SetState(s, x, y, FromCode(code)))
  }

  /** A successful `play` followed by `undo` gives back the exact board and history. */
  lemma PlayThenUndo(s: State, x: int, y: int, p: Player)
    requires WellFormed(s) && PlayState(s, x, y, p).0
    ensures UndoState(PlayState(s, x, y, p).1) == s
  {
    var t := PlayState(s, x, y, p).1;
    assert t.history[|t.history| - 1] == (x, y);
    assert t.history[..|t.history| - 1] == s.history;
    assert t.cells[Index(x, y) := None] == s.cells;
  }

  /** `play` succeeds exactly on an empty cell of the board, and then changes only that cell and appends the move to the history. */
  lemma PlayOutcome(s: State, x: int, y: int, p: Player)
    requires WellFormed(s)
    ensures PlayState(s, x, y, p).0 <==> OnBoard(x, y) && At(s.cells, x, y) == None
    ensures !PlayState(s, x, y, p).0 ==> PlayState(s, x, y, p).1 == s
    ensures PlayState(s, x, y, p).0 ==>
              var t := PlayState(s, x, y, p).1;
              At(t.cells, x, y) == p
              && (forall x', y' :: OnBoard(x', y') && (x', y') != (x, y) ==> At(t.cells, x', y') == At(s.cells, x', y'))
              && t.history == s.history + [(x, y)]
  {
    if PlayState(s, x, y, p).0 {
      var t := PlayState(s, x, y, p).1;
      forall x', y' | OnBoard(x', y') && (x', y') != (x, y)
        ensures At(t.cells, x', y') == At(s.cells, x', y')
      {
        IndexInjective(x, y, x', y');
      }
    }
  }

  /** Once there is a history, every successful `play` hands the turn to the other player. */
  lemma PlayAlternatesTurn(s: State, x: int, y: int, p: Player)
    requires WellFormed(s) && PlayState(s, x, y, p).0 && |s.history| > 0
    ensures Turn(PlayState(s, x, y, p).1) != Turn(s)
    ensures Turn(PlayState(s, x, y, p).1) != None
  {
  }

  /** With no history and unequal stone counts the turn is Two's, even when Two has the extra stone. */
  lemma TurnWithoutHistory(s: State)
    requires |s.history| == 0
    ensures Turn(s) == One <==> multiset(s.cells)[One] == multiset(s.cells)[Two]
    ensures multiset(s.cells)[Two] > multiset(s.cells)[One] ==> Turn(s) == Two
  {
  }

  /** Neither `set` ever changes the history, and the int overload agrees with the Player overload when it succeeds. */
  lemma SetKeepsHistory(s: State, x: int, y: int, p: Player, code: int)
    requires WellFormed(s)
    ensures SetState(s, x, y, p).history == s.history
    ensures SetCodeState(s, x, y, code).1.history == s.history
    ensures SetCodeState(s, x, y, code).0 <==> OnBoard(x, y) && 0 <= code <= 2
    ensures SetCodeState(s, x, y, code).0 ==> At(SetCodeState(s, x, y, code).1.cells, x, y) == FromCode(code)
  {
  }

  /** One step of `Run`: the next cell either extends the run by one or ends it. */
  lemma RunStep(cells: seq<Player>, x: int, y: int, dx: int, dy: int, p: Player)
    requires |cells| == CellCount && IsStep(dx, dy)
    ensures OnBoard(x + dx, y + dy) && At(cells, x + dx, y + dy) == p ==>
              Run(cells, x, y, dx, dy, p) == 1 + Run(cells, x + dx, y + dy, dx, dy, p)
              && Room(x + dx, dx) + Room(y + dy, dy) < Room(x, dx) + Room(y, dy)
    ensures !(OnBoard(x + dx, y + dy) && At(cells, x + dx, y + dy) == p) ==> Run(cells, x, y, dx, dy, p) == 0
  {
  }

  /** On axis `i`, the line through (x, y) holds at least five stones of `p`. */
  predicate AxisWins(cells: seq<Player>, x: int, y: int, i: int, p: Player)
    requires |cells| == CellCount && 0 <= i < |Axes|
  {
    AxesAreSteps();
    LineLength(cells, x, y, Axes[i].0, Axes[i].1, p) >= 5
  }

  /** `checkWin`'s rule, axis by axis. */
  lemma WinAtByAxes(cells: seq<Player>, x: int, y: int)
    requires |cells| == CellCount
    ensures WinAt(cells, x, y) <==> At(cells, x, y) != None && exists i :: 0 <= i < |Axes| && AxisWins(cells, x, y, i, At(cells, x, y))
  {
    AxesAreSteps();
    var p := At(cells, x, y);
    if WinAt(cells, x, y) {
      var i :| 0 <= i < |Axes| && LineLength(cells, x, y, Axes[i].0, Axes[i].1, p) >= 5;
      assert AxisWins(cells, x, y, i, p);
    }
    if p != None && exists i :: 0 <= i < |Axes| && AxisWins(cells, x, y, i, p) {
      var i :| 0 <= i < |Axes| && AxisWins(cells, x, y, i, p);
      assert LineLength(cells, x, y, Axes[i].0, Axes[i].1, p) >= 5;
    }
  }

  class GameState {
    const size: int
    const board: array<Player>
    var history: seq<Move>

    ghost predicate Valid()
      reads this, board
    {
      size == Size && board.Length == CellCount && WellFormed(State(board[..], history))
    }

    function Current(): State
      reads this, board
    {
      State(board[..], history)
    }

    /** The constructor ignores its argument: the board is always 20 by 20. */
    constructor(requestedSize: int)
      ensures Valid() && fresh(board)
      ensures size == 20 && Current() == Initial()
    {
      size := 20;
      board := new Player[400](_ => None);
      history := [];
    }

    /** `isValid` */
    function IsValid(x: int, y: int): (b: bool)
      reads this
      requires size == Size
      ensures b <==> OnBoard(x, y)
    {
      x >= 0 && y >= 0 && x < size && y < size
    }

    /** `playerAt`: the cell read from the array, None off the board. */
    function PlayerAt(x: int, y: int): (p: Player)
      reads this, board
      requires Valid()
      ensures p == At(board[..], x, y)
    {
      if !IsValid(x, y) then None else board[y * size + x]
    }

    /** `isEmpty`: true for an empty cell and for every cell off the board. */
    function IsEmpty(x: int, y: int): (b: bool)
      reads this, board
      requires Valid()
      ensures !OnBoard(x, y) ==> b
      ensures OnBoard(x, y) ==> (b <==> board[Index(x, y)] == None)
    {
      PlayerAt(x, y) == None
    }

    /** `get`: the owner's code, 0 off the board. */
    function Get(x: int, y: int): (c: int)
      reads this, board
      requires Valid()
      ensures 0 <= c <= 2
      ensures !OnBoard(x, y) ==> c == 0
      ensures OnBoard(x, y) ==> FromCode(c) == board[Index(x, y)]
    {
      Code(PlayerAt(x, y))
    }

    /** `currentPlayer`: never None; with a history, One exactly after an even number of moves. */
    function CurrentPlayer(): (p: Player)
      reads this, board
      requires Valid()
      ensures p != None
      ensures |history| > 0 ==> (p == One <==> |history| % 2 == 0)
      ensures |history| == 0 ==> (p == One <==> multiset(board[..])[One] == multiset(board[..])[Two])
    {
      Turn(Current())
    }

    method Play(x: int, y: int, player: Player) returns (ok: bool)
      requires Valid()
      modifies this, board
      ensures Valid()
      ensures (ok, Current()) == PlayState(old(Current()), x, y, player)
    {
      if !IsValid(x, y) || !IsEmpty(x, y) {
        return false;
      }
      board[y * size + x] := player;
      history := history + [(x, y)];
      ok := true;
    }

    method Undo()
      requires Valid()
      modifies this, board
      ensures Valid()
      ensures Current() == UndoState(old(Current()))
    {
      if |history| == 0 {
        return;
      }
      var last := history[|history| - 1];
      board[last.1 * size + last.0] := None;
      history := history[..|history| - 1];
    }

    /** `clear`: every cell emptied and the history dropped. */
    method Clear()
      requires Valid()
      modifies this, board
      ensures Valid()
      ensures Current() == Initial()
    {
      var i := 0;
      while i < board.Length
        invariant 0 <= i <= board.Length
        invariant forall j :: 0 <= j < i ==> board[j] == None
      {
        board[i] := None;
        i := i + 1;
      }
      history := [];
    }

    /** `set(x, y, Player)` */
    method Set(x: int, y: int, player: Player)
      requires Valid()
      modifies board
      ensures Valid()
      ensures Current() == SetState(old(Current()), x, y, player)
    {
      if IsValid(x, y) {
        board[y * size + x] := player;
      }
    }

    /** `set(x, y, int)` */
    method SetCode(x: int, y: int, player: int) returns (ok: bool)
      requires Valid()
      modifies board
      ensures Valid()
      ensures (ok, Current()) == SetCodeState(old(Current()), x, y, player)
    {
      if !IsValid(x, y) {
        return false;
      }
      if player < 0 || player > 2 {
        return false;
      }
      board[y * size + x] := FromCode(player);
      ok := true;
    }

    /** `countDirection`: walks from one step away while the cells are on the board and `player`'s. */
    method CountDirection(x: int, y: int, dx: int, dy: int, player: Player) returns (count: int)
      requires Valid() && IsStep(dx, dy)
      ensures count == Run(board[..], x, y, dx, dy, player)
    {
      ghost var cells := board[..];
      count := 0;
      var nx, ny := x + dx, y + dy;
      ghost var px, py := x, y;
      while IsValid(nx, ny) && PlayerAt(nx, ny) == player
        invariant nx == px + dx && ny == py + dy
        invariant Run(cells, x, y, dx, dy, player) == count + Run(cells, px, py, dx, dy, player)
        decreases Room(px, dx) + Room(py, dy)
      {
        RunStep(cells, px, py, dx, dy, player);
        count := count + 1;
        px, py := nx, ny;
        nx, ny := nx + dx, ny + dy;
      }
      RunStep(cells, px, py, dx, dy, player);
    }

    /** `checkWin`: an empty cell never wins; otherwise some axis holds a line of at least five. */
    method CheckWin(x: int, y: int) returns (win: bool)
      requires Valid()
      ensures win == WinAt(board[..], x, y)
    {
      var player := PlayerAt(x, y);
      if player == None {
        return false;
      }
      ghost var cells := board[..];
      AxesAreSteps();
      for i := 0 to |Axes|
        invariant forall j :: 0 <= j < i ==> !AxisWins(cells, x, y, j, player)
      {
        var dx, dy := Axes[i].0, Axes[i].1;
        var forward := CountDirection(x, y, dx, dy, player);
        var backward := CountDirection(x, y, -dx, -dy, player);
        var count := 1 + forward + backward;
        if count >= 5 {
          assert AxisWins(cells, x, y, i, player);
          WinAtByAxes(cells, x, y);
          return true;
        }
      }
      WinAtByAxes(cells, x, y);
      return false;
    }

    /** `checkWinFor`: scans the rows top to bottom for a winning stone of `player`. */
    method CheckWinFor(player: Player) returns (win: bool)
      requires Valid()
      ensures win == WinFor(board[..], player)
    {
      if player == None {
        return false;
      }
      ghost var cells := board[..];
      for y := 0 to size
        invariant forall y', x' :: 0 <= y' < y && 0 <= x' < Size ==> !WinningStone(cells, player, x', y')
      {
        for x := 0 to size
          invariant forall x' :: 0 <= x' < x ==> !WinningStone(cells, player, x', y)
          invariant forall y', x' :: 0 <= y' < y && 0 <= x' < Size ==> !WinningStone(cells, player, x', y')
        {
          var won := false;
          if PlayerAt(x, y) == player {
            won := CheckWin(x, y);
          }
          if won {
            assert WinningStone(cells, player, x, y);
            return true;
          }
        }
      }
      return false;
    }

    /** `getWinner` */
    method GetWinner() returns (winner: Player)
      requires Valid()
      ensures winner == Winner(board[..])
    {
      var one := CheckWinFor(One);
      if one {
        return One;
      }
      var two := CheckWinFor(Two);
      if two {
        return Two;
      }
      return None;
    }
  }
}
