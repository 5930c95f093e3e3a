/**
 * `Bot` as src/Bot.cpp implements it: a session over a square board of
 * `int` cells (0 empty, 1 our stone, 2 the opponent's) stored row by row,
 * whose size is set by `start`. Before any successful `start` the size is 0
 * and the board is empty. Moves are checked against the board before they
 * are written, and `chooseMove` picks the centre, or else the first empty
 * cell in row-major order.
 */
module BotSession {
  import opened Wrappers

  /** `Bot::Move`: an (x, y) pair. */
  type Move = (int, int)

  const Empty: int := 0
  const Ours: int := 1
  const Theirs: int := 2
  const MinSize: int := 5
  const MaxSize: int := 100

  /** The position of (x, y) in a board of side `n` stored row by row. */
  function Offset(n: int, m: Move): int
  {
    m.1 * n + m.0
  }

  /** `inBounds`: both coordinates lie in [0, n). */
  predicate InBounds(n: int, m: Move)
  {
    0 <= m.0 < n && 0 <= m.1 < n
  }

  /** Rows further down start further on: `a * n <= b * n` for `a <= b`. */
  lemma {:induction false} RowStartMonotone(a: nat, b: nat, n: nat)
    requires a <= b
    ensures a * n <= b * n
    decreases b - a
  {
    if a < b {
      RowStartMonotone(a, b - 1, n);
      assert b * n == (b - 1) * n + n;
    }
  }

  /** An in-bounds move names a cell of an n-by-n board. */
  lemma OffsetInRange(n: int, m: Move)
    requires InBounds(n, m)
    ensures 0 <= Offset(n, m) < n * n
  {
    var y: nat := m.1;
    RowStartMonotone(y + 1, n, n);
    assert (y + 1) * n == y * n + n;
    assert 0 <= y * n;
  }

  /** Different in-bounds moves name different cells. */
  lemma OffsetInjective(n: int, m1: Move, m2: Move)
    requires InBounds(n, m1) && InBounds(n, m2) && m1 != m2
    ensures Offset(n, m1) != Offset(n, m2)
  {
    var y1: nat, y2: nat := m1.1, m2.1;
    if y1 < y2 {
      RowStartMonotone(y1 + 1, y2, n);
      assert (y1 + 1) * n == y1 * n + n;
    } else if y2 < y1 {
      RowStartMonotone(y2 + 1, y1, n);
      assert (y2 + 1) * n == y2 * n + n;
    }
  }

  /** The code in the cell of `m`. */
  function CellAt(board: seq<int>, n: int, m: Move): int
    requires |board| == n * n && InBounds(n, m)
  {
    OffsetInRange(n, m);
    board[Offset(n, m)]
  }

  /** The board with the cell of `m` set to `code`. */
  function Put(board: seq<int>, n: int, m: Move, code: int): (r: seq<int>)
    requires |board| == n * n && InBounds(n, m)
    ensures |r| == |board|
  {
    OffsetInRange(n, m);
    board[Offset(n, m) := code]
  }

  /** Writing one cell changes that cell and no other. */
  lemma PutOnlyThatCell(board: seq<int>, n: int, m: Move, code: int, m': Move)
    requires |board| == n * n && InBounds(n, m) && InBounds(n, m')
    ensures CellAt(Put(board, n, m, code), n, m') == if m' == m then code else CellAt(board, n, m')
  {
    OffsetInRange(n, m);
    OffsetInRange(n, m');
    if m' != m {
      OffsetInjective(n, m, m');
    }
  }

  /** The session invariant: a board of side 0 or in [5, 100], size squared cells, each 0, 1 or 2. */
  predicate WellFormed(n: int, board: seq<int>)
  {
    (n == 0 || MinSize <= n <= MaxSize)
    && |board| == n * n
    && forall i :: 0 <= i < |board| ==> Empty <= board[i] <= Theirs
  }

  /** Writing a code in 0..2 keeps the invariant. */
  lemma PutKeepsWellFormed(board: seq<int>, n: int, m: Move, code: int)
    requires WellFormed(n, board) && InBounds(n, m) && Empty <= code <= Theirs
    ensures WellFormed(n, Put(board, n, m, code))
  {
  }

  /**
   * `takeback` after a successful move restores the board: a stone placed
   * on an empty cell and taken back leaves no trace.
   */
  lemma TakebackUndoesMove(board: seq<int>, n: int, m: Move, code: int)
    requires |board| == n * n && InBounds(n, m) && CellAt(board, n, m) == Empty
    ensures Put(Put(board, n, m, code), n, m, Empty) == board
  {
    OffsetInRange(n, m);
  }

  /** Cell (x, y) comes before `m` when scanning rows top to bottom, each left to right. */
  predicate Before(n: int, c: Move, m: Move)
  {
    InBounds(n, c) && (c.1 < m.1 || (c.1 == m.1 && c.0 < m.0))
  }

  class Bot {
    var boardSize: int
    var board: seq<int>

    ghost predicate Valid()
      reads this
    {
      WellFormed(boardSize, board)
    }

    /** A bot that has not been started: size 0, no cells. */
    constructor()
      ensures Valid() && boardSize == 0 && board == []
    {
      boardSize := 0;
      board := [];
    }

    /**
     * `start(size)`: refused, with nothing changed, for a size outside
     * [5, 100]; otherwise the board becomes size by size empty cells.
     */
    method Start(size: int) returns (ok: bool)
      modifies this
      ensures ok <==> MinSize <= size <= MaxSize
      ensures ok ==> boardSize == size && board == seq(size * size, _ => Empty) && Valid()
      ensures !ok ==> boardSize == old(boardSize) && board == old(board)
    {
      if size < MinSize || size > MaxSize {
        return false;
      }
      boardSize := size;
      board := seq(size * size, _ => Empty);
      return true;
    }

    /** `restart`: refused before a successful `start`; otherwise every cell is emptied and the size kept. */
    method Restart() returns (ok: bool)
      requires Valid()
      modifies this
      ensures ok <==> old(boardSize) > 0
      ensures boardSize == old(boardSize) && Valid()
      ensures ok ==> board == seq(|old(board)|, _ => Empty)
      ensures !ok ==> board == old(board)
    {
      if boardSize <= 0 {
        return false;
      }
      board := seq(|board|, _ => Empty);
      return true;
    }

    /** `inBounds`: false for every move before `start`, since the size is 0. */
    predicate InBoundsNow(m: Move)
      reads this
    {
      InBounds(boardSize, m)
    }

    /** `isEmpty`: the cell of an in-bounds move holds 0. */
    function IsEmpty(m: Move): (r: bool)
      reads this
      requires Valid() && InBounds(boardSize, m)
      ensures r <==> CellAt(board, boardSize, m) == Empty
    {
      CellAt(board, boardSize, m) == 0
    }

    /**
     * `applyOpponentMove`: an in-bounds empty cell receives 2; any other move
     * is refused and the board is left as it was.
     */
    method ApplyOpponentMove(m: Move) returns (ok: bool)
      requires Valid()
      modifies this
      ensures ok <==> InBounds(old(boardSize), m) && CellAt(old(board), old(boardSize), m) == Empty
      ensures boardSize == old(boardSize) && Valid()
      ensures ok ==> board == Put(old(board), old(boardSize), m, Theirs)
      ensures !ok ==> board == old(board)
    {
      if !InBoundsNow(m) || !IsEmpty(m) {
        return false;
      }
      PutKeepsWellFormed(board, boardSize, m, Theirs);
      board := Put(board, boardSize, m, Theirs);
      return true;
    }

    /** `applyOurMove`: as `applyOpponentMove`, writing 1. */
    method ApplyOurMove(m: Move) returns (ok: bool)
      requires Valid()
      modifies this
      ensures ok <==> InBounds(old(boardSize), m) && CellAt(old(board), old(boardSize), m) == Empty
      ensures boardSize == old(boardSize) && Valid()
      ensures ok ==> board == Put(old(board), old(boardSize), m, Ours)
      ensures !ok ==> board == old(board)
    {
      if !InBoundsNow(m) || !IsEmpty(m) {
        return false;
      }
      PutKeepsWellFormed(board, boardSize, m, Ours);
      board := Put(board, boardSize, m, Ours);
      return true;
    }

    /**
     * `applyBoardMove(move, player)`: refused off the board, for a stone on
     * an occupied cell, or for a code outside 0..2; code 0 may empty an
     * occupied cell.
     */
    method ApplyBoardMove(m: Move, player: int) returns (ok: bool)
      requires Valid()
      modifies this
      ensures ok <==> InBounds(old(boardSize), m) && (player == Empty || CellAt(old(board), old(boardSize), m) == Empty)
                      && Empty <= player <= Theirs
      ensures boardSize == old(boardSize) && Valid()
      ensures ok ==> board == Put(old(board), old(boardSize), m, player)
      ensures !ok ==> board == old(board)
    {
      if !InBoundsNow(m) {
        return false;
      }
      if player != 0 && !IsEmpty(m) {
        return false;
      }
      if player < 0 || player > 2 {
        return false;
      }
      PutKeepsWellFormed(board, boardSize, m, player);
      board := Put(board, boardSize, m, player);
      return true;
    }

    /**
     * `takeback`: an in-bounds occupied cell is emptied, whoever owns it and
     * whenever it was played; any other move is refused.
     */
    method Takeback(m: Move) returns (ok: bool)
      requires Valid()
      modifies this
      ensures ok <==> InBounds(old(boardSize), m) && CellAt(old(board), old(boardSize), m) != Empty
      ensures boardSize == old(boardSize) && Valid()
      ensures ok ==> board == Put(old(board), old(boardSize), m, Empty)
      ensures !ok ==> board == old(board)
    {
      if !InBoundsNow(m) || IsEmpty(m) {
        return false;
      }
      PutKeepsWellFormed(board, boardSize, m, Empty);
      board := Put(board, boardSize, m, Empty);
      return true;
    }

    /**
     * `chooseMove`: nothing before `start`; the centre (size/2, size/2) when
     * it is empty; otherwise the first empty cell in row-major order, and
     * nothing when the board is full. The board is not changed.
     */
    method ChooseMove() returns (r: Option<Move>)
      requires Valid()
      ensures boardSize == 0 ==> r == None
      ensures boardSize > 0 && CellAt(board, boardSize, (boardSize / 2, boardSize / 2)) == Empty
              ==> r == Some((boardSize / 2, boardSize / 2))
      ensures r.Some? ==> InBounds(boardSize, r.value) && CellAt(board, boardSize, r.value) == Empty
      ensures r.None? <==> forall c :: InBounds(boardSize, c) ==> CellAt(board, boardSize, c) != Empty
      ensures boardSize > 0 && CellAt(board, boardSize, (boardSize / 2, boardSize / 2)) != Empty && r.Some?
              ==> forall c :: Before(boardSize, c, r.value) ==> CellAt(board, boardSize, c) != Empty
    {
      if boardSize <= 0 || |board| == 0 {
        return None;
      }
      var n := boardSize;
      var center := (n / 2, n / 2);
      if InBoundsNow(center) && IsEmpty(center) {
        return Some(center);
      }
      for y := 0 to n
        invariant forall c :: InBounds(n, c) && c.1 < y ==> CellAt(board, n, c) != Empty
      {
        for x := 0 to n
          invariant forall c :: InBounds(n, c) && (c.1 < y || (c.1 == y && c.0 < x)) ==> CellAt(board, n, c) != Empty
        {
          var candidate := (x, y);
          if IsEmpty(candidate) {
            return Some(candidate);
          }
        }
      }
      return None;
    }

    /** `size`: 0 before `start`, afterwards the side of the board, whose cell count is its square. */
    function Size(): (r: int)
      reads this
      requires Valid()
      ensures r == 0 <==> board == []
      ensures r == 0 || MinSize <= r <= MaxSize
      ensures |board| == r * r
    {
      boardSize
    }
  }
}
