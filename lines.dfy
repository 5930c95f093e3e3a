/**
 * The five-in-a-row rule of `GameState` (src/GameState.cpp:93-162), stated
 * over the board's contents as a sequence of 400 cells in row-major order.
 * `GameState`'s methods are proved against these definitions.
 */
module Lines {

  /** `GameState::Player`; the codes 0, 1 and 2 of the source are `Code`. */
  datatype Player = None | One | Two

  function Code(p: Player): (c: int)
    ensures 0 <= c <= 2
    ensures c == 0 <==> p == None
  {
    match p
    case None => 0
    case One => 1
    case Two => 2
  }

  /** `static_cast<Player>(c)` for a code in 0..2. */
  function FromCode(c: int): (p: Player)
    requires 0 <= c <= 2
    ensures Code(p) == c
  {
    if c == 0 then None else if c == 1 then One else Two
  }

  /** The board is always 20 by 20 (src/GameState.cpp:4-7). */
  const Size: int := 20
  const CellCount: int := 400

  predicate OnBoard(x: int, y: int)
  {
    0 <= x < Size && 0 <= y < Size
  }

  /** The row-major position of a cell: `y * size_ + x`. */
  function Index(x: int, y: int): (i: nat)
    requires OnBoard(x, y)
    ensures i < CellCount
  {
    y * 20 + x
  }

  lemma IndexInjective(x1: int, y1: int, x2: int, y2: int)
    requires OnBoard(x1, y1) && OnBoard(x2, y2)
    ensures Index(x1, y1) == Index(x2, y2) <==> x1 == x2 && y1 == y2
  {
  }

  /** `playerAt`: the cell's owner, None off the board. */
  function At(cells: seq<Player>, x: int, y: int): Player
    requires |cells| == CellCount
  {
    if OnBoard(x, y) then cells[Index(x, y)] else None
  }

  /** A step of one cell in one of the eight directions. */
  predicate IsStep(dx: int, dy: int)
  {
    -1 <= dx <= 1 && -1 <= dy <= 1 && (dx != 0 || dy != 0)
  }

  /** The coordinate `k` steps from `v` in direction `d` (`v + k * d` for d in -1..1). */
  function Shift(v: int, d: int, k: int): int
  {
    if d > 0 then v + k else if d < 0 then v - k else v
  }

  /** How many more steps in direction `d` can stay on the board from `v`. */
  function Room(v: int, d: int): nat
  {
    if d > 0 then (if v <= Size then Size - v else 0)
    else if d < 0 then (if v >= -1 then v + 1 else 0)
    else 0
  }

  /**
   * `countDirection`: the number of consecutive cells owned by `p`, starting
   * one step from (x, y) in direction (dx, dy) and stopping at the first cell
   * that is off the board or not `p`'s.
   */
  function Run(cells: seq<Player>, x: int, y: int, dx: int, dy: int, p: Player): nat
    requires |cells| == CellCount && IsStep(dx, dy)
    decreases Room(x, dx) + Room(y, dy)
  {
    var nx, ny := x + dx, y + dy;
    if OnBoard(nx, ny) && At(cells, nx, ny) == p then
      assert dx != 0 ==> Room(x, dx) == Room(nx, dx) + 1;
      assert dy != 0 ==> Room(y, dy) == Room(ny, dy) + 1;
      1 + Run(cells, nx, ny, dx, dy, p)
    else 0
  }

  /** Along a moving axis the run stays below the room there is, so from a cell on the board it is at most 19. */
  lemma {:induction false} RunBounded(cells: seq<Player>, x: int, y: int, dx: int, dy: int, p: Player)
    requires |cells| == CellCount && IsStep(dx, dy)
    ensures dx != 0 && Room(x, dx) > 0 ==> Run(cells, x, y, dx, dy, p) < Room(x, dx)
    ensures dy != 0 && Room(y, dy) > 0 ==> Run(cells, x, y, dx, dy, p) < Room(y, dy)
    decreases Room(x, dx) + Room(y, dy)
  {
    var nx, ny := x + dx, y + dy;
    if OnBoard(nx, ny) && At(cells, nx, ny) == p {
      assert dx != 0 ==> Room(x, dx) == Room(nx, dx) + 1 && Room(nx, dx) > 0;
      assert dy != 0 ==> Room(y, dy) == Room(ny, dy) + 1 && Room(ny, dy) > 0;
      RunBounded(cells, nx, ny, dx, dy, p);
    }
  }

  /** The cell `k` steps from (x, y) is on the board and owned by `p`. */
  predicate OwnedAt(cells: seq<Player>, x: int, y: int, dx: int, dy: int, k: int, p: Player)
    requires |cells| == CellCount
  {
    OnBoard(Shift(x, dx, k), Shift(y, dy, k)) && At(cells, Shift(x, dx, k), Shift(y, dy, k)) == p
  }

  /** Stepping once along the direction shifts the offsets by one. */
  lemma OwnedNext(cells: seq<Player>, x: int, y: int, dx: int, dy: int, k: int, p: Player)
    requires |cells| == CellCount && IsStep(dx, dy)
    ensures OwnedAt(cells, x + dx, y + dy, dx, dy, k - 1, p) == OwnedAt(cells, x, y, dx, dy, k, p)
  {
    assert Shift(x + dx, dx, k - 1) == Shift(x, dx, k) && Shift(y + dy, dy, k - 1) == Shift(y, dy, k);
  }

  /** The `k`-th cell counted by `Run` is owned by `p`. */
  lemma {:induction false} RunOwned(cells: seq<Player>, x: int, y: int, dx: int, dy: int, p: Player, k: int)
    requires |cells| == CellCount && IsStep(dx, dy)
    requires 1 <= k <= Run(cells, x, y, dx, dy, p)
    ensures OwnedAt(cells, x, y, dx, dy, k, p)
    decreases Room(x, dx) + Room(y, dy)
  {
    var nx, ny := x + dx, y + dy;
    OwnedNext(cells, x, y, dx, dy, k, p);
    if k == 1 {
      assert Shift(nx, dx, 0) == nx && Shift(ny, dy, 0) == ny;
    } else {
      RunOwned(cells, nx, ny, dx, dy, p, k - 1);
    }
  }

  /** The cell just after the ones counted by `Run` is not owned by `p`. */
  lemma {:induction false} RunStops(cells: seq<Player>, x: int, y: int, dx: int, dy: int, p: Player)
    requires |cells| == CellCount && IsStep(dx, dy)
    ensures !OwnedAt(cells, x, y, dx, dy, Run(cells, x, y, dx, dy, p) + 1, p)
    decreases Room(x, dx) + Room(y, dy)
  {
    var nx, ny := x + dx, y + dy;
    var n := Run(cells, x, y, dx, dy, p);
    OwnedNext(cells, x, y, dx, dy, n + 1, p);
    if OnBoard(nx, ny) && At(cells, nx, ny) == p {
      RunStops(cells, nx, ny, dx, dy, p);
    } else {
      assert Shift(nx, dx, 0) == nx && Shift(ny, dy, 0) == ny;
    }
  }

  /** The cells counted by `Run` are owned by `p`, and the one after them is not. */
  lemma RunCells(cells: seq<Player>, x: int, y: int, dx: int, dy: int, p: Player)
    requires |cells| == CellCount && IsStep(dx, dy)
    ensures forall k :: 1 <= k <= Run(cells, x, y, dx, dy, p) ==> OwnedAt(cells, x, y, dx, dy, k, p)
    ensures !OwnedAt(cells, x, y, dx, dy, Run(cells, x, y, dx, dy, p) + 1, p)
  {
    forall k | 1 <= k <= Run(cells, x, y, dx, dy, p)
      ensures OwnedAt(cells, x, y, dx, dy, k, p)
    {
      RunOwned(cells, x, y, dx, dy, p, k);
    }
    RunStops(cells, x, y, dx, dy, p);
  }

  /** `m` owned cells in a row from one step away make a run of at least `m`. */
  lemma {:induction false} RunAtLeast(cells: seq<Player>, x: int, y: int, dx: int, dy: int, p: Player, m: nat)
    requires |cells| == CellCount && IsStep(dx, dy)
    requires forall k :: 1 <= k <= m ==> OwnedAt(cells, x, y, dx, dy, k, p)
    ensures Run(cells, x, y, dx, dy, p) >= m
    decreases m
  {
    if m > 0 {
      var nx, ny := x + dx, y + dy;
      assert OwnedAt(cells, x, y, dx, dy, 1, p);
      OwnedNext(cells, x, y, dx, dy, 1, p);
      forall k | 1 <= k <= m - 1
        ensures OwnedAt(cells, nx, ny, dx, dy, k, p)
      {
        assert OwnedAt(cells, x, y, dx, dy, k + 1, p);
        OwnedNext(cells, x, y, dx, dy, k + 1, p);
      }
      RunAtLeast(cells, nx, ny, dx, dy, p, m - 1);
    }
  }

  /** The four axes `checkWin` scans: horizontal, vertical, diagonal and anti-diagonal. */
  const Axes: seq<(int, int)> := [(1, 0), (0, 1), (1, 1), (1, -1)]

  lemma AxesAreSteps()
    ensures forall i :: 0 <= i < |Axes| ==> IsStep(Axes[i].0, Axes[i].1) && IsStep(-Axes[i].0, -Axes[i].1)
  {
  }

  /** The stones of `p` on the line through (x, y) along (dx, dy) that touch it, with (x, y) itself. */
  function LineLength(cells: seq<Player>, x: int, y: int, dx: int, dy: int, p: Player): nat
    requires |cells| == CellCount && IsStep(dx, dy)
  {
    1 + Run(cells, x, y, dx, dy, p) + Run(cells, x, y, -dx, -dy, p)
  }

  /** `checkWin(x, y)`: the cell is taken and on some axis its line holds at least five stones. */
  predicate WinAt(cells: seq<Player>, x: int, y: int)
    requires |cells| == CellCount
  {
    AxesAreSteps();
    At(cells, x, y) != None
    && exists i :: 0 <= i < |Axes| && LineLength(cells, x, y, Axes[i].0, Axes[i].1, At(cells, x, y)) >= 5
  }

  /** Five cells in a row, from `s` to `s + 4` steps from (x, y), are all owned by `p`. */
  predicate Window(cells: seq<Player>, x: int, y: int, dx: int, dy: int, s: int, p: Player)
    requires |cells| == CellCount
  {
    forall k :: s <= k <= s + 4 ==> OwnedAt(cells, x, y, dx, dy, k, p)
  }

  /** Some five-in-a-row window along (dx, dy) contains (x, y) and is owned by `p`. */
  predicate FiveThrough(cells: seq<Player>, x: int, y: int, dx: int, dy: int, p: Player)
    requires |cells| == CellCount
  {
    exists s :: -4 <= s <= 0 && Window(cells, x, y, dx, dy, s, p)
  }

  /** Going back `k` steps is going forward `-k` steps. */
  lemma OwnedBackward(cells: seq<Player>, x: int, y: int, dx: int, dy: int, k: int, p: Player)
    requires |cells| == CellCount
    ensures OwnedAt(cells, x, y, -dx, -dy, k, p) == OwnedAt(cells, x, y, dx, dy, -k, p)
  {
    assert Shift(x, -dx, k) == Shift(x, dx, -k) && Shift(y, -dy, k) == Shift(y, dy, -k);
  }

  /** The cells counted backwards by `Run` are the owned cells at negative offsets. */
  lemma RunCellsBackward(cells: seq<Player>, x: int, y: int, dx: int, dy: int, p: Player)
    requires |cells| == CellCount && IsStep(dx, dy)
    ensures forall k :: -(Run(cells, x, y, -dx, -dy, p) as int) <= k <= -1 ==> OwnedAt(cells, x, y, dx, dy, k, p)
  {
    RunCells(cells, x, y, -dx, -dy, p);
    forall k | -(Run(cells, x, y, -dx, -dy, p) as int) <= k <= -1
      ensures OwnedAt(cells, x, y, dx, dy, k, p)
    {
      OwnedBackward(cells, x, y, dx, dy, -k, p);
    }
  }

  /** An owned stretch of at least five cells through offset 0 contains a window through it. */
  lemma SegmentHasWindow(cells: seq<Player>, x: int, y: int, dx: int, dy: int, p: Player, lo: int, hi: int)
    requires |cells| == CellCount
    requires lo <= 0 <= hi && hi - lo >= 4
    requires forall k :: lo <= k <= hi ==> OwnedAt(cells, x, y, dx, dy, k, p)
    ensures FiveThrough(cells, x, y, dx, dy, p)
  {
    var s := if lo >= -4 then lo else -4;
    assert Window(cells, x, y, dx, dy, s, p);
  }

  lemma LongLineHasWindow(cells: seq<Player>, x: int, y: int, dx: int, dy: int, p: Player)
    requires |cells| == CellCount && IsStep(dx, dy) && OwnedAt(cells, x, y, dx, dy, 0, p)
    requires LineLength(cells, x, y, dx, dy, p) >= 5
    ensures FiveThrough(cells, x, y, dx, dy, p)
  {
    var a, b := Run(cells, x, y, dx, dy, p), Run(cells, x, y, -dx, -dy, p);
    RunCells(cells, x, y, dx, dy, p);
    RunCellsBackward(cells, x, y, dx, dy, p);
    SegmentHasWindow(cells, x, y, dx, dy, p, -(b as int), a);
  }

  lemma WindowMakesLongLine(cells: seq<Player>, x: int, y: int, dx: int, dy: int, p: Player)
    requires |cells| == CellCount && IsStep(dx, dy)
    requires FiveThrough(cells, x, y, dx, dy, p)
    ensures LineLength(cells, x, y, dx, dy, p) >= 5
  {
    var s :| -4 <= s <= 0 && Window(cells, x, y, dx, dy, s, p);
    RunAtLeast(cells, x, y, dx, dy, p, s + 4);
    var backX, backY := -dx, -dy;
    forall k | 1 <= k <= -s
      ensures OwnedAt(cells, x, y, backX, backY, k, p)
    {
      OwnedBackward(cells, x, y, dx, dy, k, p);
    }
    RunAtLeast(cells, x, y, -dx, -dy, p, -s);
  }

  /**
   * The counting rule of `checkWin` is the five-in-a-row rule: the line
   * through an owned cell counts at least five exactly when some window of
   * five cells along that axis contains it and is owned by the same player.
   * So a longer line (six, seven) wins as well.
   */
  lemma LineLengthIffFive(cells: seq<Player>, x: int, y: int, dx: int, dy: int, p: Player)
    requires |cells| == CellCount && IsStep(dx, dy) && OwnedAt(cells, x, y, dx, dy, 0, p)
    ensures LineLength(cells, x, y, dx, dy, p) >= 5 <==> FiveThrough(cells, x, y, dx, dy, p)
  {
    if LineLength(cells, x, y, dx, dy, p) >= 5 {
      LongLineHasWindow(cells, x, y, dx, dy, p);
    }
    if FiveThrough(cells, x, y, dx, dy, p) {
      WindowMakesLongLine(cells, x, y, dx, dy, p);
    }
  }

  /** `checkWin(x, y)` holds exactly when a five-in-a-row window of the cell's owner passes through it on one of the four axes. */
  lemma WinAtIffFiveThrough(cells: seq<Player>, x: int, y: int)
    requires |cells| == CellCount
    ensures WinAt(cells, x, y) <==>
              At(cells, x, y) != None
              && exists i :: 0 <= i < |Axes| && FiveThrough(cells, x, y, Axes[i].0, Axes[i].1, At(cells, x, y))
  {
    var p := At(cells, x, y);
    AxesAreSteps();
    if p != None {
      assert OnBoard(x, y);
      forall i | 0 <= i < |Axes|
        ensures LineLength(cells, x, y, Axes[i].0, Axes[i].1, p) >= 5 <==> FiveThrough(cells, x, y, Axes[i].0, Axes[i].1, p)
      {
        assert Shift(x, Axes[i].0, 0) == x && Shift(y, Axes[i].1, 0) == y;
        LineLengthIffFive(cells, x, y, Axes[i].0, Axes[i].1, p);
      }
    }
  }

  /** `checkWinFor(p)`: some cell owned by `p` satisfies `checkWin`; never for None. */
  predicate WinFor(cells: seq<Player>, p: Player)
    requires |cells| == CellCount
  {
    p != None && exists x, y :: 0 <= x < Size && 0 <= y < Size && WinningStone(cells, p, x, y)
  }

  /** A stone of `p` at (x, y) that wins. */
  predicate WinningStone(cells: seq<Player>, p: Player, x: int, y: int)
    requires |cells| == CellCount
  {
    At(cells, x, y) == p && WinAt(cells, x, y)
  }

  /** `getWinner`: One if One has won, else Two if Two has, else None. */
  function Winner(cells: seq<Player>): Player
    requires |cells| == CellCount
  {
    if WinFor(cells, One) then One else if WinFor(cells, Two) then Two else None
  }

  /** Every stone of five owned cells in a row wins, on any axis, anywhere on the board. */
  lemma FiveInARowWins(cells: seq<Player>, x: int, y: int, i: int, p: Player, j: int)
    requires |cells| == CellCount && 0 <= i < |Axes| && p != None
    requires Window(cells, x, y, Axes[i].0, Axes[i].1, 0, p)
    requires 0 <= j <= 4
    ensures WinAt(cells, Shift(x, Axes[i].0, j), Shift(y, Axes[i].1, j))
    ensures WinFor(cells, p)
  {
    var dx, dy := Axes[i].0, Axes[i].1;
    var cx, cy := Shift(x, dx, j), Shift(y, dy, j);
    AxesAreSteps();
    assert OwnedAt(cells, x, y, dx, dy, j, p);
    forall k | -j <= k <= -j + 4
      ensures OwnedAt(cells, cx, cy, dx, dy, k, p)
    {
      assert OwnedAt(cells, x, y, dx, dy, j + k, p);
      assert Shift(cx, dx, k) == Shift(x, dx, j + k) && Shift(cy, dy, k) == Shift(y, dy, j + k);
    }
    assert Window(cells, cx, cy, dx, dy, -j, p);
    WinAtIffFiveThrough(cells, cx, cy);
    assert OwnedAt(cells, cx, cy, dx, dy, 0, p);
    assert WinningStone(cells, p, cx, cy);
  }

  /** `getWinner` prefers One: it is One whenever One has five in a row, whatever Two has. */
  lemma WinnerPrefersOne(cells: seq<Player>)
    requires |cells| == CellCount
    ensures Winner(cells) == One <==> WinFor(cells, One)
    ensures Winner(cells) == Two <==> !WinFor(cells, One) && WinFor(cells, Two)
    ensures Winner(cells) == None <==> !WinFor(cells, One) && !WinFor(cells, Two)
  {
  }

  /** An empty board has no winner. */
  lemma EmptyBoardNoWinner(cells: seq<Player>)
    requires |cells| == CellCount && forall i :: 0 <= i < |cells| ==> cells[i] == None
    ensures Winner(cells) == None
  {
    assert !WinFor(cells, One) && !WinFor(cells, Two);
  }

  /** `js` lists positions of `cells` in increasing order. */
  predicate Increasing(cells: seq<Player>, js: seq<int>)
  {
    (forall t :: 0 <= t < |js| ==> 0 <= js[t] < |cells|)
    && forall t1, t2 :: 0 <= t1 < t2 < |js| ==> js[t1] < js[t2]
  }

  /** Distinct positions owned by `p` are each counted among its stones. */
  lemma {:induction false} StonesAtLeast(cells: seq<Player>, js: seq<int>, p: Player)
    requires Increasing(cells, js)
    requires forall t :: 0 <= t < |js| ==> cells[js[t]] == p
    ensures multiset(cells)[p] >= |js|
  {
    if js != [] {
      var j := js[|js| - 1];
      var front, back := cells[..j], cells[j..];
      assert cells == front + back;
      assert back[0] == p;
      assert back == [p] + back[1..];
      assert multiset(back)[p] >= 1;
      var js' := js[..|js| - 1];
      forall t | 0 <= t < |js'|
        ensures front[js'[t]] == p
      {
        assert js'[t] == js[t];
      }
      StonesAtLeast(front, js', p);
      assert multiset(cells) == multiset(front) + multiset(back);
    }
  }

  /** The row-major position `k` steps from (x, y), whether or not it is on the board. */
  function Pos(x: int, y: int, dx: int, dy: int, k: int): int
  {
    Shift(y, dy, k) * 20 + Shift(x, dx, k)
  }

  /** Each step moves the position by the same amount, `20 * dy + dx`, which is never 0. */
  lemma PosStep(x: int, y: int, dx: int, dy: int, k: int)
    requires IsStep(dx, dy)
    ensures Pos(x, y, dx, dy, k + 1) == Pos(x, y, dx, dy, k) + 20 * dy + dx
    ensures 20 * dy + dx != 0
  {
  }

  /** Five increasing positions owned by `p` are five of its stones. */
  lemma FiveStones(cells: seq<Player>, p: Player, i0: int, i1: int, i2: int, i3: int, i4: int)
    requires 0 <= i0 < i1 < i2 < i3 < i4 < |cells|
    requires cells[i0] == p && cells[i1] == p && cells[i2] == p && cells[i3] == p && cells[i4] == p
    ensures multiset(cells)[p] >= 5
  {
    StonesAtLeast(cells, [i0, i1, i2, i3, i4], p);
  }

  /** Each cell of a window is on the board and holds its owner's stone. */
  lemma WindowCell(cells: seq<Player>, x: int, y: int, dx: int, dy: int, s: int, p: Player, k: int)
    requires |cells| == CellCount && Window(cells, x, y, dx, dy, s, p) && s <= k <= s + 4
    ensures 0 <= Pos(x, y, dx, dy, k) < CellCount && cells[Pos(x, y, dx, dy, k)] == p
  {
    assert OwnedAt(cells, x, y, dx, dy, k, p);
  }

  /** A window of five cells holds five stones of its owner. */
  lemma WindowStones(cells: seq<Player>, x: int, y: int, dx: int, dy: int, s: int, p: Player)
    requires |cells| == CellCount && IsStep(dx, dy)
    requires Window(cells, x, y, dx, dy, s, p)
    ensures multiset(cells)[p] >= 5
  {
    var i0, i1, i2, i3, i4 := Pos(x, y, dx, dy, s), Pos(x, y, dx, dy, s + 1), Pos(x, y, dx, dy, s + 2),
                              Pos(x, y, dx, dy, s + 3), Pos(x, y, dx, dy, s + 4);
    WindowCell(cells, x, y, dx, dy, s, p, s);
    WindowCell(cells, x, y, dx, dy, s, p, s + 1);
    WindowCell(cells, x, y, dx, dy, s, p, s + 2);
    WindowCell(cells, x, y, dx, dy, s, p, s + 3);
    WindowCell(cells, x, y, dx, dy, s, p, s + 4);
    PosStep(x, y, dx, dy, s);
    PosStep(x, y, dx, dy, s + 1);
    PosStep(x, y, dx, dy, s + 2);
    PosStep(x, y, dx, dy, s + 3);
    if 20 * dy + dx > 0 {
      FiveStones(cells, p, i0, i1, i2, i3, i4);
    } else {
      FiveStones(cells, p, i4, i3, i2, i1, i0);
    }
  }

  /**
   * A winning stone needs four more stones of its owner on the board: with
   * four stones or fewer a player has no winning cell, wherever they are.
   */
  lemma WinNeedsFiveStones(cells: seq<Player>, x: int, y: int)
    requires |cells| == CellCount && WinAt(cells, x, y)
    ensures multiset(cells)[At(cells, x, y)] >= 5
  {
    var p := At(cells, x, y);
    AxesAreSteps();
    WinAtIffFiveThrough(cells, x, y);
    var i :| 0 <= i < |Axes| && FiveThrough(cells, x, y, Axes[i].0, Axes[i].1, p);
    var s :| -4 <= s <= 0 && Window(cells, x, y, Axes[i].0, Axes[i].1, s, p);
    WindowStones(cells, x, y, Axes[i].0, Axes[i].1, s, p);
  }

  /** A player with at most four stones has not won. */
  lemma FourStonesNoWin(cells: seq<Player>, p: Player)
    requires |cells| == CellCount && multiset(cells)[p] <= 4
    ensures !WinFor(cells, p)
  {
    if WinFor(cells, p) {
      var x, y :| 0 <= x < Size && 0 <= y < Size && WinningStone(cells, p, x, y);
      WinNeedsFiveStones(cells, x, y);
    }
  }
}
