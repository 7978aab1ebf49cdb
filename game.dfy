/**
 * `game.py`: the constant data of the five-state `SimpleGame`, the interactive TicTacToe board with
 * its `mark` state machine and `_is_over` check, and `Player`.
 */
module Game {
  import opened Wrappers
  import opened Text
  import MdpModels

  // ----- SimpleGame -----

  /** The fields `SimpleGame.__init__` sets; `transitions[s][s_next][a]` is a probability. */
  datatype SimpleGame = SimpleGame(
    actions: seq<(int, int)>,
    states: seq<int>,
    rewards: seq<int>,
    gamma: real,
    transitions: seq<seq<seq<real>>>,
    values: seq<int>)

  /** Every row of `t` has exactly `width` entries. */
  predicate Rows<T>(t: seq<seq<T>>, width: nat)
  {
    forall k :: 0 <= k < |t| ==> |t[k]| == width
  }

  /** `SimpleGame()`: a 5-state chain with two actions, reward 10 in the middle state and gamma 0.9. */
  function NewSimpleGame(): (g: SimpleGame)
    ensures |g.states| == 5 && |g.actions| == 5 && |g.rewards| == 5 && |g.values| == 5
    ensures |g.transitions| == 5 && forall s :: 0 <= s < 5 ==> |g.transitions[s]| == 5 && Rows(g.transitions[s], 2)
  {
    SimpleGame(
      [(0, 1), (0, 1), (0, 1), (0, 1), (0, 1)],
      [0, 1, 2, 3, 4],
      [-1, -1, 10, -1, -1],
      0.9,
      [
        [[0.9, 0.1], [0.1, 0.9], [0.0, 0.0], [0.0, 0.0], [0.0, 0.0]],
        [[0.9, 0.1], [0.0, 0.0], [0.1, 0.9], [0.0, 0.0], [0.0, 0.0]],
        [[0.0, 0.0], [0.0, 0.0], [0.0, 0.0], [0.0, 0.0], [0.0, 0.0]],
        [[0.0, 0.0], [0.0, 0.0], [0.9, 0.1], [0.0, 0.0], [0.1, 0.9]],
        [[0.0, 0.0], [0.0, 0.0], [0.0, 0.0], [0.9, 0.1], [0.1, 0.9]]
      ],
      [0, 0, 0, 0, 0])
  }

  /** Σ over s_next of `row[s_next][a]`: the mass action `a` sends out of one state. */
  function Mass(row: seq<seq<real>>, a: nat): real
    requires forall k :: 0 <= k < |row| ==> a < |row[k]|
    decreases |row|
  {
    if row == [] then 0.0 else Mass(row[..|row| - 1], a) + row[|row| - 1][a]
  }

  lemma MassOfFive(row: seq<seq<real>>, a: nat)
    requires |row| == 5 && forall k :: 0 <= k < 5 ==> a < |row[k]|
    ensures Mass(row, a) == row[0][a] + row[1][a] + row[2][a] + row[3][a] + row[4][a]
  {
    assert row[..4][..3] == row[..3];
    assert row[..3][..2] == row[..2];
    assert row[..2][..1] == row[..1];
    assert row[..1][..0] == [];
    assert Mass(row[..1], a) == row[0][a];
    assert Mass(row[..2], a) == Mass(row[..1], a) + row[1][a];
    assert Mass(row[..3], a) == Mass(row[..2], a) + row[2][a];
    assert Mass(row[..4], a) == Mass(row[..3], a) + row[3][a];
    assert Mass(row, a) == Mass(row[..4], a) + row[4][a];
  }

  /**
   * Each action of each state other than 2 is a probability distribution over the next state, while
   * state 2 sends no mass anywhere; rewards are -1 except 10 in state 2, and gamma is 0.9.
   */
  lemma SimpleGameStochastic(s: nat, a: nat)
    requires s < 5 && a < 2
    ensures s != 2 ==> Mass(NewSimpleGame().transitions[s], a) == 1.0
    ensures s == 2 ==> forall k :: 0 <= k < 5 ==> NewSimpleGame().transitions[s][k][a] == 0.0
    ensures NewSimpleGame().rewards[s] == if s == 2 then 10 else -1
    ensures NewSimpleGame().gamma == 0.9
  {
    var g := NewSimpleGame();
    MassOfFive(g.transitions[s], a);
  }

  // ----- Player -----

  /** `Player(name, mark)`. */
  datatype Player = Player(name: int, mark: char)
  {
    /** `Player.__str__`: `"Player {name}"`. */
    function ToString(): (r: string)
      ensures |r| >= 8 && r[..7] == "Player "
    {
      "Player " + IntToString(name)
    }
  }

  /** Players with different names print differently. */
  lemma PlayerLabelsDiffer(p: Player, q: Player)
    requires p.name != q.name
    ensures p.ToString() != q.ToString()
  {
    forall i, j | IntToString(i) == IntToString(j) ensures i == j {
      IntToStringInjective(i, j);
    }
    assert p.ToString()[7..] == IntToString(p.name);
    assert q.ToString()[7..] == IntToString(q.name);
  }

  // ----- the TicTacToe board -----

  /** The exceptions `mark` raises. */
  datatype MarkError = GameOver | OutOfBoundary(i: int, j: int) | Taken(i: int, j: int) | MissingPosition(i: int, j: int)
  {
    /** The exception's text; a `KeyError` from `set.remove` prints the missing key. */
    function Message(): string
    {
      match this
      case GameOver => "Game is over."
      case OutOfBoundary(i, j) => "(" + IntToString(i) + ", " + IntToString(j) + ") is out of boundary."
      case Taken(i, j) => "(" + IntToString(i) + ", " + IntToString(j) + ") is taken."
      case MissingPosition(i, j) => "(" + IntToString(i) + ", " + IntToString(j) + ")"
    }
  }

  function WinMessage(p: Player): string
  {
    "Game over. Winer is " + p.ToString() + "."
  }

  const TieMessage: string := "Tie."
  const ContinueMessage: string := "Game is not over. Continue."

  predicate InBounds(i: int, j: int)
  {
    0 <= i <= 2 && 0 <= j <= 2
  }

  /** The cells of the anti-diagonal, in the order `_is_over` visits them. */
  const AntiDiagonal: seq<(int, int)> := [(0, 2), (1, 1), (2, 0)]

  /**
   * The value `_is_over` ends with on the row-major cells: the anti-diagonal when (i, j) is on it,
   * otherwise the main diagonal when i == j, otherwise row i. The column result is always overwritten.
   */
  function LastCheck(cells: string, m: char, i: int, j: int): bool
    requires |cells| == 9 && InBounds(i, j)
  {
    if (i, j) in AntiDiagonal then cells[2] == m && cells[4] == m && cells[6] == m
    else if i == j then cells[0] == m && cells[4] == m && cells[8] == m
    else cells[3 * i] == m && cells[3 * i + 1] == m && cells[3 * i + 2] == m
  }

  /** Whenever `_is_over` reports the end, the mark does own a full line in the sense of `mdp.py`'s `winner`. */
  lemma LastCheckSound(cells: string, m: char, i: int, j: int)
    requires |cells| == 9 && InBounds(i, j)
    requires LastCheck(cells, m, i, j)
    ensures MdpModels.Winner(cells, m)
  {
    MdpModels.WinnerIffLine(cells, m);
    if (i, j) in AntiDiagonal {
      assert MdpModels.LineHeld(cells, m, MdpModels.Lines[7]);
    } else if i == j {
      assert MdpModels.LineHeld(cells, m, MdpModels.Lines[6]);
    } else {
      assert MdpModels.LineHeld(cells, m, MdpModels.Lines[3 + i]);
    }
  }

  /** A completed column is not noticed: three `X` down column 0, the last placed at (1, 0). */
  lemma ColumnWinMissed()
    ensures MdpModels.Winner("X--X--X--", 'X')
    ensures !LastCheck("X--X--X--", 'X', 1, 0)
  {
    MdpModels.WinnerIffLine("X--X--X--", 'X');
    assert MdpModels.LineHeld("X--X--X--", 'X', MdpModels.Lines[0]);
  }

  /** `str(board)`: each row's three marks followed by a newline. */
  function Rendered(cells: string): (r: string)
    requires |cells| == 9
    ensures |r| == 12
    ensures forall k :: 0 <= k < 12 ==> r[k] == if k % 4 == 3 then '\n' else cells[3 * (k / 4) + k % 4]
  {
    cells[0..3] + "\n" + cells[3..6] + "\n" + cells[6..9] + "\n"
  }

  /** The first `rows` rows as `__str__` prints them. */
  function RenderedRows(cells: string, rows: nat): string
    requires |cells| == 9 && rows <= 3
  {
    if rows == 0 then "" else RenderedRows(cells, rows - 1) + cells[3 * (rows - 1)..3 * rows] + "\n"
  }

  /** The game board `TicTacToe` of `game.py`: a 3x3 grid of marks, the free cells and the end flag. */
  class Board {
    const board: array2<char>
    var isOver: bool
    var remaining: set<(int, int)>

    predicate Valid()
    {
      board.Length0 == 3 && board.Length1 == 3
    }

    /** The cells read row by row. */
    function Cells(): (r: string)
      requires Valid()
      reads board
      ensures |r| == 9
      ensures forall i, j :: 0 <= i < 3 && 0 <= j < 3 ==> r[3 * i + j] == board[i, j]
    {
      [board[0, 0], board[0, 1], board[0, 2], board[1, 0], board[1, 1], board[1, 2], board[2, 0], board[2, 1], board[2, 2]]
    }

    /** `remaining_pos` is exactly the set of blank cells. */
    predicate BlanksTracked()
      requires Valid()
      reads this, board
    {
      && (forall p :: p in remaining ==> InBounds(p.0, p.1) && board[p.0, p.1] == '-')
      && (forall i, j :: 0 <= i < 3 && 0 <= j < 3 && board[i, j] == '-' ==> (i, j) in remaining)
    }

    /** A new board: all cells `'-'`, all nine positions remaining, and the game not over. */
    constructor ()
      ensures Valid() && fresh(board)
      ensures forall i, j :: 0 <= i < 3 && 0 <= j < 3 ==> board[i, j] == '-'
      ensures forall p :: p in remaining <==> InBounds(p.0, p.1)
      ensures !isOver
      ensures BlanksTracked()
    {
      board := new char[3, 3]((i, j) => '-');
      isOver := false;
      remaining := set i, j | 0 <= i < 3 && 0 <= j < 3 :: (i, j);
    }

    /** `__str__`: row by row, a newline after the third column. */
    method ToString() returns (s: string)
      requires Valid()
      ensures s == Rendered(Cells())
    {
      s := "";
      ghost var cells := Cells();
      var size := board.Length0;
      for row := 0 to size
        invariant s == RenderedRows(cells, row)
      {
        for col := 0 to size
          invariant s == RenderedRows(cells, row) + cells[3 * row..3 * row + col] + (if col == 3 then "\n" else "")
        {
          assert cells[3 * row + col] == board[row, col];
          assert cells[3 * row..3 * row + col + 1] == cells[3 * row..3 * row + col] + [board[row, col]];
          s := s + [board[row, col]];
          if col == 2 {
            s := s + "\n";
          }
        }
      }
      assert RenderedRows(cells, 3) == Rendered(cells) by {
        assert RenderedRows(cells, 1) == cells[0..3] + "\n";
        assert RenderedRows(cells, 2) == cells[0..3] + "\n" + cells[3..6] + "\n";
      }
    }

    /** `_is_over(player, i, j)`: four `&=` loops, each restarting from True; the last one that runs decides. */
    method IsOver(player: Player, i: int, j: int) returns (over: bool)
      requires Valid() && InBounds(i, j)
      modifies this
      ensures over == LastCheck(Cells(), player.mark, i, j)
      ensures isOver == over && remaining == old(remaining)
    {
      // horizontally (in fact column j)
      over := true;
      for k := 0 to 3
        invariant over == forall l :: 0 <= l < k ==> board[l, j] == player.mark
      {
        over := over && board[k, j] == player.mark;
      }
      // vertically (in fact row i)
      over := true;
      for k := 0 to 3
        invariant over == forall l :: 0 <= l < k ==> board[i, l] == player.mark
      {
        over := over && board[i, k] == player.mark;
      }
      assert over == (board[i, 0] == player.mark && board[i, 1] == player.mark && board[i, 2] == player.mark);
      if i == j {
        over := true;
        for k := 0 to 3
          invariant over == forall l :: 0 <= l < k ==> board[l, l] == player.mark
        {
          over := over && board[k, k] == player.mark;
        }
        assert over == (board[0, 0] == player.mark && board[1, 1] == player.mark && board[2, 2] == player.mark);
      }
      if (i, j) in AntiDiagonal {
        over := true;
        for k := 0 to |AntiDiagonal|
          invariant over == forall l :: 0 <= l < k ==> board[AntiDiagonal[l].0, AntiDiagonal[l].1] == player.mark
        {
          over := over && board[AntiDiagonal[k].0, AntiDiagonal[k].1] == player.mark;
        }
        assert AntiDiagonal[0] == (0, 2) && AntiDiagonal[1] == (1, 1) && AntiDiagonal[2] == (2, 0);
        assert over == (board[0, 2] == player.mark && board[1, 1] == player.mark && board[2, 0] == player.mark);
      }
      isOver := over;
    }

    /** The conditions under which `mark(player, i, j)` gets as far as writing the cell. */
    predicate Placeable(i: int, j: int)
      requires Valid()
      reads this, board
    {
      !isOver && InBounds(i, j) && board[i, j] == '-'
    }

    /**
     * `mark(player, i, j)`: refuse a finished game, an out-of-range cell or a taken cell, leaving the
     * board as it was; otherwise write the mark, drop (i, j) from the free cells and report the outcome.
     */
    method Mark(player: Player, i: int, j: int) returns (r: Result<string, MarkError>)
      requires Valid()
      modifies this, board
      ensures Valid()
      ensures old(isOver) ==> r == Err(GameOver)
      ensures !old(isOver) && !InBounds(i, j) ==> r == Err(OutOfBoundary(i, j))
      ensures !old(isOver) && InBounds(i, j) && old(board[i, j]) != '-' ==> r == Err(Taken(i, j))
      ensures !old(Placeable(i, j)) ==> unchanged(board) && remaining == old(remaining) && isOver == old(isOver)
      ensures old(Placeable(i, j)) ==>
        && board[i, j] == player.mark
        && (forall a, b :: 0 <= a < 3 && 0 <= b < 3 && (a, b) != (i, j) ==> board[a, b] == old(board[a, b]))
      ensures old(Placeable(i, j)) && (i, j) !in old(remaining) ==>
        r == Err(MissingPosition(i, j)) && remaining == old(remaining) && isOver == old(isOver)
      ensures old(Placeable(i, j)) && (i, j) in old(remaining) ==>
        && remaining == old(remaining) - {(i, j)}
        && isOver == LastCheck(Cells(), player.mark, i, j)
        && r == Ok(if isOver then WinMessage(player) else if |remaining| == 0 then TieMessage else ContinueMessage)
      ensures old(BlanksTracked()) && player.mark != '-' ==> BlanksTracked() && r != Err(MissingPosition(i, j))
    {
      if isOver {
        return Err(GameOver);
      }
      if i < 0 || j < 0 || i > 2 || j > 2 {
        return Err(OutOfBoundary(i, j));
      }
      if board[i, j] != '-' {
        return Err(Taken(i, j));
      }
      board[i, j] := player.mark;
      if (i, j) !in remaining {
        // set.remove raises KeyError
        return Err(MissingPosition(i, j));
      }
      remaining := remaining - {(i, j)};
      var over := IsOver(player, i, j);
      if over {
        return Ok(WinMessage(player));
      }
      if |remaining| <= 0 {
        return Ok(TieMessage);
      }
      return Ok(ContinueMessage);
    }
  }

  /** With the free cells tracked, `"Tie."` comes only once every cell holds a mark. */
  lemma TieMeansFull(b: Board)
    requires b.Valid() && b.BlanksTracked() && |b.remaining| == 0
    ensures forall i, j :: 0 <= i < 3 && 0 <= j < 3 ==> b.board[i, j] != '-'
  {
    forall i, j | 0 <= i < 3 && 0 <= j < 3 ensures b.board[i, j] != '-' {
    }
  }
}
