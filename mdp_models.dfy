/**
 * The MDP instances of `mdp.py`: the list helpers `find_indices` and `replace_char`, TicTacToe on
 * 9-character boards over `X`, `O` and `-`, and the n-by-n GridWorld with its memoised action lists.
 */
module MdpModels {
  import opened Wrappers

  // ----- list helpers -----

  /** The positions of `s` holding `x`, in increasing order (what `find_indices` collects). */
  function Indices<T(==)>(s: seq<T>, x: T): (r: seq<nat>)
    ensures forall k :: 0 <= k < |r| ==> r[k] < |s| && s[r[k]] == x
    ensures forall k, l :: 0 <= k < l < |r| ==> r[k] < r[l]
    ensures forall i :: 0 <= i < |s| && s[i] == x ==> i in r
    decreases |s|
  {
    if s == [] then []
    else
      var prev := Indices(s[..|s| - 1], x);
      assert forall i :: 0 <= i < |s| - 1 ==> s[..|s| - 1][i] == s[i];
      prev + (if s[|s| - 1] == x then [|s| - 1] else [])
  }

  /** `list.count(x)`. */
  function Count<T(==)>(s: seq<T>, x: T): (r: nat)
    ensures r <= |s|
    decreases |s|
  {
    if s == [] then 0 else Count(s[..|s| - 1], x) + (if s[|s| - 1] == x then 1 else 0)
  }

  /** There are as many positions holding `x` as occurrences of `x`. */
  lemma {:induction false} IndicesCount<T>(s: seq<T>, x: T)
    ensures |Indices(s, x)| == Count(s, x)
    decreases |s|
  {
    if s != [] {
      IndicesCount(s[..|s| - 1], x);
    }
  }

  /** `find_indices(list_to_check, item_to_find)`: the enumerate loop appending matching indices. */
  method FindIndices<T(==)>(list: seq<T>, item: T) returns (indices: seq<nat>)
    ensures indices == Indices(list, item)
  {
    indices := [];
    var idx := 0;
    while idx < |list|
      invariant 0 <= idx <= |list|
      invariant indices == Indices(list[..idx], item)
    {
      assert list[..idx + 1][..idx] == list[..idx];
      if list[idx] == item {
        indices := indices + [idx];
      }
      idx := idx + 1;
    }
    assert list[..idx] == list;
  }

  /** A Python slice bound on a sequence of length n: a negative bound counts from the end, then it is clipped to [0, n]. */
  function SliceBound(i: int, n: nat): (r: nat)
    ensures r <= n
    ensures 0 <= i <= n ==> r == i
    ensures i > n ==> r == n
  {
    if i < 0 then (if i + n < 0 then 0 else i + n) else if i > n then n else i
  }

  /** `replace_char(s, char, index)`: `s[:index] + char + s[index + 1:]` with Python slice bounds. */
  function ReplaceChar(s: string, c: char, index: int): (r: string)
    ensures 0 <= index < |s| ==> r == s[index := c]
    ensures index >= |s| ==> r == s + [c]
  {
    s[..SliceBound(index, |s|)] + [c] + s[SliceBound(index + 1, |s|)..]
  }

  /** Inside the string, the replacement keeps the length, puts `c` at `index` and changes nothing else. */
  lemma ReplaceCharInRange(s: string, c: char, index: int)
    requires 0 <= index < |s|
    ensures |ReplaceChar(s, c, index)| == |s|
    ensures ReplaceChar(s, c, index)[index] == c
    ensures forall j :: 0 <= j < |s| && j != index ==> ReplaceChar(s, c, index)[j] == s[j]
  {
    var r := ReplaceChar(s, c, index);
    assert r == s[..index] + [c] + s[index + 1..];
  }

  // ----- TicTacToe -----

  /** `TicTacToe.StateCondition`. */
  datatype StateCondition = Continue | Win | Lose | Tie | Invalid

  /** The MDP's fields: every board as a state, the player's mark, and the opponent's mark. */
  datatype TicTacToe = TicTacToe(states: seq<string>, player: char, opponent: char)

  /** The marks `itertools.product` ranges over, in its order. */
  const Marks: string := "XO-"

  /** `[c] + b` for every board `b`, in order. */
  function Prefixed(c: char, bs: seq<string>): (r: seq<string>)
    ensures |r| == |bs|
    ensures forall i :: 0 <= i < |bs| ==> r[i] == [c] + bs[i]
  {
    seq(|bs|, i requires 0 <= i < |bs| => [c] + bs[i])
  }

  /** `itertools.product(["X", "O", "-"], repeat=n)` joined into strings: the first mark varies slowest. */
  function AllBoards(n: nat): seq<string>
  {
    if n == 0 then [""]
    else
      var rest := AllBoards(n - 1);
      Prefixed('X', rest) + Prefixed('O', rest) + Prefixed('-', rest)
  }

  function Pow3(n: nat): nat
  {
    if n == 0 then 1 else 3 * Pow3(n - 1)
  }

  /** A board all of whose cells hold one of the three marks. */
  predicate OverMarks(b: string)
  {
    forall i :: 0 <= i < |b| ==> b[i] in Marks
  }

  lemma {:induction false} AllBoardsCount(n: nat)
    ensures |AllBoards(n)| == Pow3(n)
    decreases n
  {
    if n > 0 {
      AllBoardsCount(n - 1);
    }
  }

  /** Every enumerated board has n cells, each a mark. */
  lemma {:induction false} AllBoardsSound(n: nat, i: nat)
    requires i < |AllBoards(n)|
    ensures |AllBoards(n)[i]| == n && OverMarks(AllBoards(n)[i])
    decreases n
  {
    if n > 0 {
      var rest := AllBoards(n - 1);
      var b := AllBoards(n)[i];
      var j := if i < |rest| then i else if i < 2 * |rest| then i - |rest| else i - 2 * |rest|;
      var c := if i < |rest| then 'X' else if i < 2 * |rest| then 'O' else '-';
      assert b == [c] + rest[j];
      AllBoardsSound(n - 1, j);
      assert forall k :: 1 <= k < |b| ==> b[k] == rest[j][k - 1];
    }
  }

  lemma OverMarksTail(b: string)
    requires |b| >= 1 && OverMarks(b)
    ensures OverMarks(b[1..]) && b[0] in Marks
  {
    assert forall j :: 0 <= j < |b| - 1 ==> b[1..][j] == b[j + 1];
  }

  /** Prefixing a mark to an enumerated board gives a board of the next enumeration. */
  lemma PrefixedInNext(n: nat, c: char, tail: string)
    requires n >= 1 && c in Marks && tail in AllBoards(n - 1)
    ensures [c] + tail in AllBoards(n)
  {
    var rest := AllBoards(n - 1);
    var i :| 0 <= i < |rest| && rest[i] == tail;
    var x, o, blank := Prefixed('X', rest), Prefixed('O', rest), Prefixed('-', rest);
    assert AllBoards(n) == x + o + blank;
    var row := if c == 'X' then x else if c == 'O' then o else blank;
    assert row[i] == [c] + tail;
  }

  /** Every board of n marks is enumerated. */
  lemma {:induction false} AllBoardsComplete(n: nat, b: string)
    requires |b| == n && OverMarks(b)
    ensures b in AllBoards(n)
    decreases n
  {
    if n == 0 {
      assert b == "";
    } else {
      OverMarksTail(b);
      AllBoardsComplete(n - 1, b[1..]);
      PrefixedInNext(n, b[0], b[1..]);
      assert b == [b[0]] + b[1..];
    }
  }

  /** `generate_states` yields 3^n boards, and they are exactly the length-n boards over the three marks. */
  lemma AllBoardsExactly(n: nat)
    ensures |AllBoards(n)| == Pow3(n)
    ensures forall b :: b in AllBoards(n) <==> |b| == n && OverMarks(b)
  {
    AllBoardsCount(n);
    forall b ensures b in AllBoards(n) <==> |b| == n && OverMarks(b) {
      if b in AllBoards(n) {
        var i :| 0 <= i < |AllBoards(n)| && AllBoards(n)[i] == b;
        AllBoardsSound(n, i);
      }
      if |b| == n && OverMarks(b) {
        AllBoardsComplete(n, b);
      }
    }
  }

  /** The validity filter is switched off: boards no game can reach, such as nine `X`, are states too. */
  lemma UnreachableBoardsAreStates()
    ensures "XXXXXXXXX" in AllBoards(9)
  {
    AllBoardsExactly(9);
    assert OverMarks("XXXXXXXXX");
  }

  /** `TicTacToe.__init__(player)`: the opponent is `"O"` whatever the player. */
  function NewTicTacToe(player: char): (t: TicTacToe)
    ensures t.opponent == 'O'
    ensures t.player == player
    ensures forall b :: b in t.states <==> |b| == 9 && OverMarks(b)
  {
    AllBoardsExactly(9);
    TicTacToe(AllBoards(9), player, if player == 'X' then 'O' else 'O')
  }

  /** Python's `s[i::k]`. */
  function Stride<T>(s: seq<T>, i: nat, k: nat): (r: seq<T>)
    requires k >= 1
    decreases |s| - i
  {
    if i >= |s| then [] else [s[i]] + Stride(s, i + k, k)
  }

  /** `winner(board, player)`: the three column slices, then the three row slices, then both diagonals. */
  function Winner(board: string, p: char): bool
    requires |board| == 9
  {
    var three := [p, p, p];
    || Stride(board, 0, 3) == three || Stride(board, 1, 3) == three || Stride(board, 2, 3) == three
    || board[0..3] == three || board[3..6] == three || board[6..9] == three
    || [board[0], board[4], board[8]] == three || [board[2], board[4], board[6]] == three
  }

  /** The eight lines of a 3x3 board, as cell numbers 0..8 read row by row. */
  const Lines: seq<seq<nat>> := [[0, 3, 6], [1, 4, 7], [2, 5, 8], [0, 1, 2], [3, 4, 5], [6, 7, 8], [0, 4, 8], [2, 4, 6]]

  /** Every cell of `line` holds `p`. */
  predicate LineHeld(board: string, p: char, line: seq<nat>)
  {
    forall j :: 0 <= j < |line| ==> line[j] < |board| && board[line[j]] == p
  }

  lemma ColumnSlice(board: string, i: nat)
    requires |board| == 9 && i < 3
    ensures Stride(board, i, 3) == [board[i], board[i + 3], board[i + 6]]
  {
    assert Stride(board, i + 9, 3) == [];
    assert Stride(board, i + 6, 3) == [board[i + 6]];
  }

  /** The slices `winner` compares, written out cell by cell. */
  lemma WinnerCells(board: string, p: char)
    requires |board| == 9
    ensures Winner(board, p) <==>
      || [board[0], board[3], board[6]] == [p, p, p] || [board[1], board[4], board[7]] == [p, p, p]
      || [board[2], board[5], board[8]] == [p, p, p] || [board[0], board[1], board[2]] == [p, p, p]
      || [board[3], board[4], board[5]] == [p, p, p] || [board[6], board[7], board[8]] == [p, p, p]
      || [board[0], board[4], board[8]] == [p, p, p] || [board[2], board[4], board[6]] == [p, p, p]
  {
    ColumnSlice(board, 0);
    ColumnSlice(board, 1);
    ColumnSlice(board, 2);
    assert board[0..3] == [board[0], board[1], board[2]];
    assert board[3..6] == [board[3], board[4], board[5]];
    assert board[6..9] == [board[6], board[7], board[8]];
  }

  /** A line of the table held by `p` makes `winner` true. */
  lemma LineMakesWinner(board: string, p: char, k: nat)
    requires |board| == 9 && k < |Lines| && LineHeld(board, p, Lines[k])
    ensures Winner(board, p)
  {
    WinnerCells(board, p);
    var l := Lines[k];
    assert board[l[0]] == p && board[l[1]] == p && board[l[2]] == p;
  }

  /** When `winner` is true, one of the eight lines is held by `p`. */
  lemma WinnerHasLine(board: string, p: char)
    requires |board| == 9 && Winner(board, p)
    ensures exists k :: 0 <= k < |Lines| && LineHeld(board, p, Lines[k])
  {
    WinnerCells(board, p);
    var three := [p, p, p];
    if [board[0], board[3], board[6]] == three { assert LineHeld(board, p, Lines[0]); }
    else if [board[1], board[4], board[7]] == three { assert LineHeld(board, p, Lines[1]); }
    else if [board[2], board[5], board[8]] == three { assert LineHeld(board, p, Lines[2]); }
    else if [board[0], board[1], board[2]] == three { assert LineHeld(board, p, Lines[3]); }
    else if [board[3], board[4], board[5]] == three { assert LineHeld(board, p, Lines[4]); }
    else if [board[6], board[7], board[8]] == three { assert LineHeld(board, p, Lines[5]); }
    else if [board[0], board[4], board[8]] == three { assert LineHeld(board, p, Lines[6]); }
    else { assert LineHeld(board, p, Lines[7]); }
  }

  /** `winner` holds exactly when some column, row or diagonal is all `p`. */
  lemma WinnerIffLine(board: string, p: char)
    requires |board| == 9
    ensures Winner(board, p) <==> exists k :: 0 <= k < |Lines| && LineHeld(board, p, Lines[k])
  {
    if Winner(board, p) {
      WinnerHasLine(board, p);
    }
    if exists k :: 0 <= k < |Lines| && LineHeld(board, p, Lines[k]) {
      var k :| 0 <= k < |Lines| && LineHeld(board, p, Lines[k]);
      LineMakesWinner(board, p, k);
    }
  }

  /** `tie(board)`: four `X`, four `O` and no winner for either side. */
  function IsTie(t: TicTacToe, board: string): bool
    requires |board| == 9
  {
    Count(board, 'X') == 4 && Count(board, 'O') == 4 && !(Winner(board, t.player) || Winner(board, t.opponent))
  }

  lemma {:induction false} CountMarks(b: string)
    requires OverMarks(b)
    ensures Count(b, 'X') + Count(b, 'O') + Count(b, '-') == |b|
    decreases |b|
  {
    if b != [] {
      var prev := b[..|b| - 1];
      assert OverMarks(prev) by {
        assert forall i :: 0 <= i < |prev| ==> prev[i] == b[i];
      }
      CountMarks(prev);
      assert b[|b| - 1] in Marks;
    }
  }

  /** On a board of marks a tie leaves exactly one blank cell. */
  lemma TieLeavesOneBlank(t: TicTacToe, board: string)
    requires |board| == 9 && OverMarks(board)
    requires IsTie(t, board)
    ensures Count(board, '-') == 1
  {
    CountMarks(board);
  }

  /** `condition(board, func)`: WIN before LOSE before TIE, otherwise CONTINUE; `func` only fed debug prints. */
  function Condition(t: TicTacToe, board: string): (r: StateCondition)
    requires |board| == 9
    ensures r != Invalid
  {
    if Winner(board, t.player) then Win
    else if Winner(board, t.opponent) then Lose
    else if IsTie(t, board) then Tie
    else Continue
  }

  /** The priority `condition` applies: a player win hides an opponent win, and either hides a tie. */
  lemma ConditionPriority(t: TicTacToe, board: string)
    requires |board| == 9
    ensures Condition(t, board) == Win <==> Winner(board, t.player)
    ensures Condition(t, board) == Lose <==> !Winner(board, t.player) && Winner(board, t.opponent)
    ensures Condition(t, board) == Tie <==> IsTie(t, board)
    ensures Condition(t, board) == Continue <==> !Winner(board, t.player) && !Winner(board, t.opponent) && !IsTie(t, board)
  {
  }

  /** With the player `"O"` the opponent is `"O"` too, so a player win is reported before any loss can be. */
  lemma PlayerONeverLoses(board: string)
    requires |board| == 9
    ensures Condition(NewTicTacToe('O'), board) != Lose
  {
  }

  /** The mark the next action places: the opponent's when the player has more pieces, else the player's. */
  function Pawn(t: TicTacToe, state: string): char
  {
    if Count(state, t.player) > Count(state, t.opponent) then t.opponent else t.player
  }

  /** What `actions(state)` returns: `[state]` at the end of a game, else one board per blank cell. */
  function ActionsOf(t: TicTacToe, state: string): seq<string>
    requires |state| == 9
  {
    if Condition(t, state) != Continue then [state]
    else
      var blanks := Indices(state, '-');
      seq(|blanks|, k requires 0 <= k < |blanks| => ReplaceChar(state, Pawn(t, state), blanks[k]))
  }

  /** The loop shared by `actions` and `transition`: one copy of `board` per position, with `mark` written there. */
  method MarkEach(board: string, mark: char, positions: seq<nat>) returns (boards: seq<string>)
    ensures |boards| == |positions|
    ensures forall k :: 0 <= k < |positions| ==> boards[k] == ReplaceChar(board, mark, positions[k])
  {
    boards := [];
    var i := 0;
    while i < |positions|
      invariant 0 <= i <= |positions|
      invariant |boards| == i
      invariant forall k :: 0 <= k < i ==> boards[k] == ReplaceChar(board, mark, positions[k])
    {
      boards := boards + [ReplaceChar(board, mark, positions[i])];
      i := i + 1;
    }
  }

  /** `TicTacToe.actions`: find the blanks, count the pieces, then append one board per blank. */
  method Actions(t: TicTacToe, state: string) returns (actionSet: seq<string>)
    requires |state| == 9
    ensures actionSet == ActionsOf(t, state)
  {
    if Condition(t, state) != Continue {
      return [state];
    }
    var blankPositions := FindIndices(state, '-');
    var playerCount := Count(state, t.player);
    var opponentCount := Count(state, t.opponent);
    var pawn := if playerCount > opponentCount then t.opponent else t.player;
    actionSet := MarkEach(state, pawn, blankPositions);
  }

  /**
   * During a game there is one action per blank cell, in increasing cell order, and action k is the
   * state with the pawn written into the k-th blank.
   */
  lemma ActionsFillBlanks(t: TicTacToe, state: string)
    requires |state| == 9 && Condition(t, state) == Continue
    ensures |ActionsOf(t, state)| == Count(state, '-')
    ensures forall k :: 0 <= k < |ActionsOf(t, state)| ==>
      var pos := Indices(state, '-')[k];
      state[pos] == '-' && ActionsOf(t, state)[k] == state[pos := Pawn(t, state)]
  {
    IndicesCount(state, '-');
  }

  /** Successors of `action`: the opponent's mark in each blank, each with probability 1/len. */
  function TransitionOf(t: TicTacToe, state: string, action: string): seq<(string, real)>
    requires |state| == 9
  {
    if Condition(t, state) != Continue then [(state, 1.0)]
    else
      var blanks := Indices(action, '-');
      seq(|blanks|, k requires 0 <= k < |blanks| => (ReplaceChar(action, t.opponent, blanks[k]), Share(|blanks|)))
  }

  /** `TicTacToe.transition`: collect the successor boards, then pair each with `1.0 / len(next_states)`, a division the comprehension performs only when there is a successor. */
  method Transition(t: TicTacToe, state: string, action: string) returns (r: seq<(string, real)>)
    requires |state| == 9
    ensures r == TransitionOf(t, state, action)
  {
    if Condition(t, state) != Continue {
      return [(state, 1.0)];
    }
    var blankPositions := FindIndices(action, '-');
    var nextStates := MarkEach(action, t.opponent, blankPositions);
    r := seq(|nextStates|, k requires 0 <= k < |nextStates| => (nextStates[k], Share(|nextStates|)));
  }

  /** Sum of the probabilities of a successor list. */
  function ProbSum<S>(succ: seq<(S, real)>): real
    decreases |succ|
  {
    if succ == [] then 0.0 else ProbSum(succ[..|succ| - 1]) + succ[|succ| - 1].1
  }

  /** p + p + ... + p, n times. */
  function RepeatSum(p: real, n: nat): real
  {
    if n == 0 then 0.0 else RepeatSum(p, n - 1) + p
  }

  lemma {:induction false} RepeatSumIsProduct(p: real, n: nat)
    ensures RepeatSum(p, n) == p * n as real
  {
    if n > 0 {
      RepeatSumIsProduct(p, n - 1);
    }
  }

  /** n shares of 1/n make 1. */
  lemma SharesSumToOne(n: nat)
    requires n > 0
    ensures RepeatSum(Share(n), n) == 1.0
  {
    RepeatSumIsProduct(Share(n), n);
  }

  lemma {:induction false} ProbSumConstant<S>(succ: seq<(S, real)>, p: real)
    requires forall k :: 0 <= k < |succ| ==> succ[k].1 == p
    ensures ProbSum(succ) == RepeatSum(p, |succ|)
    decreases |succ|
  {
    if succ != [] {
      ProbSumConstant(succ[..|succ| - 1], p);
    }
  }

  /** A finished game stays where it is with probability 1, whatever the action. */
  lemma FinishedGameLoops(t: TicTacToe, state: string, action: string)
    requires |state| == 9 && Condition(t, state) != Continue
    ensures TransitionOf(t, state, action) == [(state, 1.0)]
  {
  }

  /** During a game successor k puts the opponent's mark into the k-th blank of the action. */
  lemma TransitionFillsBlanks(t: TicTacToe, state: string, action: string)
    requires |state| == 9 && Condition(t, state) == Continue
    ensures |TransitionOf(t, state, action)| == Count(action, '-')
    ensures forall k :: 0 <= k < |TransitionOf(t, state, action)| ==>
      var pos := Indices(action, '-')[k];
      action[pos] == '-' && TransitionOf(t, state, action)[k].0 == action[pos := t.opponent]
  {
    IndicesCount(action, '-');
  }

  /** The successor probabilities add up to 1 unless the action leaves no blank, when the list is empty. */
  lemma TransitionSumsToOne(t: TicTacToe, state: string, action: string)
    requires |state| == 9
    ensures TransitionOf(t, state, action) != [] ==> ProbSum(TransitionOf(t, state, action)) == 1.0
  {
    var r := TransitionOf(t, state, action);
    if r != [] {
      assert Share(1) == 1.0;
      assert forall k :: 0 <= k < |r| ==> r[k].1 == Share(|r|);
      ProbSumConstant(r, Share(|r|));
      SharesSumToOne(|r|);
    }
  }

  /** `TicTacToe.reward`: 1 for a player win, -1 for an opponent win, 0 otherwise. */
  function Reward(t: TicTacToe, state: string, action: string): (r: real)
    requires |state| == 9
    ensures r == 1.0 <==> Winner(state, t.player)
    ensures r == -1.0 <==> Condition(t, state) == Lose
    ensures r == 0.0 <==> Condition(t, state) == Tie || Condition(t, state) == Continue
  {
    match Condition(t, state)
    case Win => 1.0
    case Lose => -1.0
    case _ => 0.0
  }

  /** `1 / n`, the probability of each of n equally likely outcomes. */
  function Share(n: nat): (r: real)
    ensures n > 0 ==> r > 0.0 && r * n as real == 1.0
  {
    if n == 0 then 0.0 else 1.0 / n as real
  }

  /** `{ action: 1 / len(actions) for action in actions }`; with no actions the prefix `1 /` is never evaluated. */
  function Uniform<A(==,!new)>(acts: seq<A>): (r: map<A, real>)
    ensures forall a :: a in r <==> a in acts
    ensures forall a :: a in r ==> r[a] == Share(|acts|)
  {
    map a | a in acts :: Share(|acts|)
  }

  predicate Distinct<A(==)>(acts: seq<A>)
  {
    forall i, j :: 0 <= i < j < |acts| ==> acts[i] != acts[j]
  }

  lemma {:induction false} DistinctKeys<A(!new)>(acts: seq<A>)
    requires Distinct(acts)
    ensures |Uniform(acts).Keys| == |acts|
    decreases |acts|
  {
    if acts != [] {
      var prev := acts[..|acts| - 1];
      var last := acts[|acts| - 1];
      assert Distinct(prev);
      DistinctKeys(prev);
      assert last !in prev by {
        forall k | 0 <= k < |prev| ensures prev[k] != last {
          assert acts[k] != acts[|acts| - 1];
        }
      }
      assert Uniform(acts).Keys == Uniform(prev).Keys + {last} by {
        assert acts == prev + [last];
      }
    }
  }

  /** `TicTacToe.prob`: the uniform distribution over `actions(state)`. */
  function Prob(t: TicTacToe, state: string, action: string): (r: map<string, real>)
    requires |state| == 9
    ensures forall a :: a in r <==> a in ActionsOf(t, state)
    ensures forall a :: a in r ==> r[a] == Share(|ActionsOf(t, state)|)
  {
    Uniform(ActionsOf(t, state))
  }

  /** When neither mark is the blank, the actions are distinct, so `prob` gives each of them 1/len with total 1. */
  lemma ProbIsDistribution(t: TicTacToe, state: string, action: string)
    requires |state| == 9
    requires t.player != '-' && t.opponent != '-'
    ensures |Prob(t, state, action).Keys| == |ActionsOf(t, state)|
    ensures forall a :: a in Prob(t, state, action) ==> Prob(t, state, action)[a] == Share(|Prob(t, state, action).Keys|)
  {
    var acts := ActionsOf(t, state);
    if Condition(t, state) == Continue {
      var blanks := Indices(state, '-');
      forall i, j | 0 <= i < j < |acts| ensures acts[i] != acts[j] {
        ReplaceCharInRange(state, Pawn(t, state), blanks[i]);
        assert acts[i][blanks[i]] != '-';
        assert acts[j][blanks[i]] == state[blanks[i]];
      }
    }
    DistinctKeys(acts);
  }

  /** Writing a mark into a board of marks gives a board of marks of the same size. */
  lemma ReplaceKeepsMarks(s: string, c: char, index: int)
    requires OverMarks(s) && c in Marks && 0 <= index < |s|
    ensures |ReplaceChar(s, c, index)| == |s| && OverMarks(ReplaceChar(s, c, index))
  {
    ReplaceCharInRange(s, c, index);
  }

  /** Each action of a board of marks is again a 9-cell board of marks when both sides play a mark. */
  lemma ActionsOverMarks(t: TicTacToe, state: string, a: string)
    requires |state| == 9 && OverMarks(state)
    requires t.player in Marks && t.opponent in Marks
    requires a in ActionsOf(t, state)
    ensures |a| == 9 && OverMarks(a)
  {
    if Condition(t, state) == Continue {
      var acts := ActionsOf(t, state);
      var i :| 0 <= i < |acts| && acts[i] == a;
      ReplaceKeepsMarks(state, Pawn(t, state), Indices(state, '-')[i]);
    }
  }

  /** Each successor of a board of marks is a 9-cell board of marks when the opponent plays a mark. */
  lemma SuccessorsOverMarks(t: TicTacToe, state: string, a: string, k: nat)
    requires |state| == 9 && OverMarks(state) && |a| == 9 && OverMarks(a)
    requires t.opponent in Marks
    requires k < |TransitionOf(t, state, a)|
    ensures |TransitionOf(t, state, a)[k].0| == 9 && OverMarks(TransitionOf(t, state, a)[k].0)
  {
    if Condition(t, state) == Continue {
      ReplaceKeepsMarks(a, t.opponent, Indices(a, '-')[k]);
    }
  }

  /**
   * For the player `X` or `O` every successor of every action of every board is again one of the
   * 3^9 boards, so the value table never misses a key.
   */
  lemma TicTacToeClosed(player: char, state: string, a: string, k: nat)
    requires player == 'X' || player == 'O'
    requires state in NewTicTacToe(player).states
    requires a in ActionsOf(NewTicTacToe(player), state)
    requires k < |TransitionOf(NewTicTacToe(player), state, a)|
    ensures TransitionOf(NewTicTacToe(player), state, a)[k].0 in NewTicTacToe(player).states
  {
    var t := NewTicTacToe(player);
    ActionsOverMarks(t, state, a);
    SuccessorsOverMarks(t, state, a, k);
  }

  // ----- GridWorld -----

  /** `list(itertools.product(range(n), range(n)))`: row-major pairs. */
  function GridStates(n: int): seq<(int, int)>
  {
    if n <= 0 then [] else seq(n * n, i requires 0 <= i < n * n => (i / n, i % n))
  }

  /** Cell i of the row-major enumeration lies on the grid. */
  lemma UnpairInRange(n: int, i: int)
    requires n > 0 && 0 <= i < n * n
    ensures 0 <= i / n < n && 0 <= i % n < n
  {
    assert n * (i / n) <= i;
  }

  /** The only multiple of n strictly between -n and n is 0. */
  lemma SmallMultiple(n: int, d: int)
    requires n > 0 && -n < n * d < n
    ensures d == 0
  {
  }

  lemma MulLeft(a: int, b: int, n: int)
    requires a <= b && n >= 0
    ensures a * n <= b * n
  {
  }

  /** The pair (x, y) sits at position x·n + y of the row-major enumeration. */
  lemma PairIndex(n: int, x: int, y: int)
    requires 0 <= x < n && 0 <= y < n
    ensures 0 <= x * n + y < n * n
    ensures (x * n + y) / n == x && (x * n + y) % n == y
  {
    MulLeft(x, n - 1, n);
    var i := x * n + y;
    assert n * (i / n) + i % n == i;
    SmallMultiple(n, i / n - x);
  }

  /** The grid has n·n states, exactly the pairs with both coordinates in 0..n-1. */
  lemma GridStatesExactly(n: int)
    ensures |GridStates(n)| == if n <= 0 then 0 else n * n
    ensures forall x, y :: (x, y) in GridStates(n) <==> 0 <= x < n && 0 <= y < n
  {
    if n > 0 {
      var g := GridStates(n);
      forall x, y ensures (x, y) in g <==> 0 <= x < n && 0 <= y < n {
        if (x, y) in g {
          var i :| 0 <= i < |g| && g[i] == (x, y);
          UnpairInRange(n, i);
        }
        if 0 <= x < n && 0 <= y < n {
          PairIndex(n, x, y);
          assert g[x * n + y] == (x, y);
        }
      }
    }
  }

  const LEFT: string := "LEFT"
  const RIGHT: string := "RIGHT"
  const UP: string := "UP"
  const DOWN: string := "DOWN"

  /** The moves that stay on an n-by-n grid, in the order `actions` appends them. */
  function Moves(n: int, state: (int, int)): seq<string>
  {
    (if state.0 - 1 >= 0 then [LEFT] else []) + (if state.0 + 1 < n then [RIGHT] else [])
      + (if state.1 - 1 >= 0 then [UP] else []) + (if state.1 + 1 < n then [DOWN] else [])
  }

  /** A direction is offered exactly when the move stays on the grid, and no direction twice. */
  lemma MovesExactly(n: int, state: (int, int))
    ensures LEFT in Moves(n, state) <==> state.0 - 1 >= 0
    ensures RIGHT in Moves(n, state) <==> state.0 + 1 < n
    ensures UP in Moves(n, state) <==> state.1 - 1 >= 0
    ensures DOWN in Moves(n, state) <==> state.1 + 1 < n
    ensures Distinct(Moves(n, state))
  {
    DirectionsDiffer();
    var left := if state.0 - 1 >= 0 then [LEFT] else [];
    var right := if state.0 + 1 < n then [RIGHT] else [];
    var up := if state.1 - 1 >= 0 then [UP] else [];
    var down := if state.1 + 1 < n then [DOWN] else [];
    assert Moves(n, state) == left + right + up + down;
    assert LEFT in left <==> state.0 - 1 >= 0;
    assert RIGHT in right <==> state.0 + 1 < n;
    assert UP in up <==> state.1 - 1 >= 0;
    assert DOWN in down <==> state.1 + 1 < n;
    assert LEFT !in right + up + down && RIGHT !in left + up + down;
    assert UP !in left + right + down && DOWN !in left + right + up;
    DistinctAppend(left, right);
    DistinctAppend(left + right, up);
    DistinctAppend(left + right + up, down);
  }

  /** Two duplicate-free lists with no common element concatenate to a duplicate-free list. */
  lemma DistinctAppend<A(!new)>(a: seq<A>, b: seq<A>)
    requires Distinct(a) && Distinct(b)
    requires forall x :: x in a ==> x !in b
    ensures Distinct(a + b)
  {
    forall i, j | 0 <= i < j < |a + b|
      ensures (a + b)[i] != (a + b)[j]
    {
      if i < |a| <= j {
        assert (a + b)[i] in a && (a + b)[j] == b[j - |a|];
      }
    }
  }

  lemma DirectionsDiffer()
    ensures LEFT != RIGHT && LEFT != UP && LEFT != DOWN && RIGHT != UP && RIGHT != DOWN && UP != DOWN
  {
    assert LEFT[0] == 'L' && RIGHT[0] == 'R' && UP[0] == 'U' && DOWN[0] == 'D';
  }

  /** `GridWorld`: the grid size, its states, the zero value table and the memo of action lists. */
  class GridWorld {
    const n: int
    const states: seq<(int, int)>
    const V: map<(int, int), real>
    var actionsCache: map<(int, int), seq<string>>

    /** Every memoised list is the list `actions` would compute. */
    predicate Valid()
      reads this
    {
      forall s :: s in actionsCache ==> actionsCache[s] == Moves(n, s)
    }

    constructor (n: int)
      ensures this.n == n && states == GridStates(n)
      ensures forall s :: s in V <==> s in states
      ensures forall s :: s in V ==> V[s] == 0.0
      ensures actionsCache == map[]
      ensures Valid()
    {
      this.n := n;
      states := GridStates(n);
      V := map s | s in GridStates(n) :: 0.0;
      actionsCache := map[];
    }

    /** `GridWorld.actions`: the memoised list if there is one, otherwise the in-range moves, then memoised. */
    method Actions(state: (int, int)) returns (actionSet: seq<string>)
      requires Valid()
      modifies this
      ensures Valid()
      ensures actionSet == Moves(n, state)
      ensures actionsCache == old(actionsCache)[state := actionSet]
    {
      if state in actionsCache {
        return actionsCache[state];
      }
      var (x, y) := state;
      actionSet := [];
      if x - 1 >= 0 {
        actionSet := actionSet + [LEFT];
      }
      if x + 1 < n {
        actionSet := actionSet + [RIGHT];
      }
      if y - 1 >= 0 {
        actionSet := actionSet + [UP];
      }
      if y + 1 < n {
        actionSet := actionSet + [DOWN];
      }
      assert actionSet == Moves(n, state);
      actionsCache := actionsCache[state := actionSet];
    }

    /** `GridWorld.transition`: the neighbour in the named direction with probability 1.0; `None` for any other string. */
    function Transition(state: (int, int), action: string): (r: Option<seq<((int, int), real)>>)
      ensures r.Some? <==> action in [LEFT, RIGHT, UP, DOWN]
      ensures r.Some? ==> |r.value| == 1 && r.value[0].1 == 1.0
    {
      var (x, y) := state;
      if action == LEFT then Some([((x - 1, y), 1.0)])
      else if action == RIGHT then Some([((x + 1, y), 1.0)])
      else if action == UP then Some([((x, y - 1), 1.0)])
      else if action == DOWN then Some([((x, y + 1), 1.0)])
      else None
    }

    /** `GridWorld.reward`: 1 in the corner (0, n - 1), 0 elsewhere. */
    function Reward(state: (int, int), action: string): (r: real)
      ensures r == 1.0 <==> state == (0, n - 1)
      ensures r == 0.0 <==> state != (0, n - 1)
    {
      var (x, y) := state;
      if x == 0 && y == n - 1 then 1.0 else 0.0
    }

    /** `GridWorld.prob`: the uniform distribution over `actions(state)`, which memoises the list. */
    method Prob(state: (int, int), action: string) returns (r: map<string, real>)
      requires Valid()
      modifies this
      ensures Valid()
      ensures r == Uniform(Moves(n, state))
      ensures actionsCache == old(actionsCache)[state := Moves(n, state)]
    {
      var actions := Actions(state);
      r := Uniform(actions);
    }
  }

  /** On the grid every legal move leads, with probability 1.0, to an adjacent cell that is again a state. */
  lemma MovesStayInGrid(g: GridWorld, state: (int, int), a: string)
    requires g.states == GridStates(g.n)
    requires state in g.states && a in Moves(g.n, state)
    ensures g.Transition(state, a).Some?
    ensures var next := g.Transition(state, a).value[0].0;
      next in g.states && Abs(next.0 - state.0) + Abs(next.1 - state.1) == 1
  {
    GridStatesExactly(g.n);
  }

  /** The grid's `prob` gives each legal move 1/len of the mass, and there are len distinct keys. */
  lemma GridProbIsDistribution(n: int, state: (int, int))
    ensures |Uniform(Moves(n, state)).Keys| == |Moves(n, state)|
    ensures forall a :: a in Uniform(Moves(n, state)) ==> Uniform(Moves(n, state))[a] == Share(|Uniform(Moves(n, state)).Keys|)
  {
    MovesExactly(n, state);
    DistinctKeys(Moves(n, state));
  }

  /** On a non-empty grid exactly one state pays the reward: the corner (0, n - 1). */
  lemma OneRewardingState(g: GridWorld, state: (int, int), a: string)
    requires g.states == GridStates(g.n) && g.n >= 1
    ensures (0, g.n - 1) in g.states
    ensures state in g.states && g.Reward(state, a) == 1.0 ==> state == (0, g.n - 1)
  {
    GridStatesExactly(g.n);
  }

  function Abs(x: int): nat
  {
    if x < 0 then -x else x
  }
}
