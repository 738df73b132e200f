/**
 The board of script.js: nine cells in row-major order on a 3x3 grid, the eight
 winning combinations, and `checkWinner`.
 */
module Board {
  import opened Options

  /** The two symbols a player can place. */
  datatype Sym = X | O

  /** A JavaScript value held by a cell or by a player slot: `null` (None), "X" or "O". */
  type Mark = Option<Sym>

  /** A cell position, 0 to 8. */
  type Index = i: int | 0 <= i < 9

  /** `gameBoard`: always nine cells. */
  type Board = b: seq<Mark> | |b| == 9
    witness [None, None, None, None, None, None, None, None, None]

  /** `Array(9).fill(null)`. */
  const EmptyBoard: Board := [None, None, None, None, None, None, None, None, None]

  /** `winningCombinations`: three rows, three columns, two diagonals. */
  const WinningCombinations: seq<seq<Index>> :=
    [[0, 1, 2], [3, 4, 5], [6, 7, 8],
     [0, 3, 6], [1, 4, 7], [2, 5, 8],
     [0, 4, 8], [2, 4, 6]]

  /** `combination.every(index => gameBoard[index] === player)`. */
  predicate Every(b: Board, combination: seq<Index>, p: Mark) {
    forall j | 0 <= j < |combination| :: b[combination[j]] == p
  }

  /** `combinations.some(...)` from position `from` on, scanning front to back. */
  function SomeCombination(b: Board, combinations: seq<seq<Index>>, p: Mark, from: nat): (found: bool)
    requires from <= |combinations|
    decreases |combinations| - from
    ensures found <==> exists k | from <= k < |combinations| :: Every(b, combinations[k], p)
  {
    if from == |combinations| then false
    else Every(b, combinations[from], p) || SomeCombination(b, combinations, p, from + 1)
  }

  /**
   `checkWinner(player)`: `p` holds all three cells of some row, column or
   diagonal. The comparison is `===`, so `p` may also be `null`.
   */
  function CheckWinner(b: Board, p: Mark): (won: bool)
    ensures won <==>
      || (b[0] == p && b[1] == p && b[2] == p)
      || (b[3] == p && b[4] == p && b[5] == p)
      || (b[6] == p && b[7] == p && b[8] == p)
      || (b[0] == p && b[3] == p && b[6] == p)
      || (b[1] == p && b[4] == p && b[7] == p)
      || (b[2] == p && b[5] == p && b[8] == p)
      || (b[0] == p && b[4] == p && b[8] == p)
      || (b[2] == p && b[4] == p && b[6] == p)
  {
    assert forall k | 0 <= k < |WinningCombinations| ::
      Every(b, WinningCombinations[k], p) <==>
        var c := WinningCombinations[k]; b[c[0]] == p && b[c[1]] == p && b[c[2]] == p;
    SomeCombination(b, WinningCombinations, p, 0)
  }

  /** Nobody holding a symbol has won on the empty board. */
  lemma NoWinnerOnEmptyBoard(s: Sym)
    ensures !CheckWinner(EmptyBoard, Some(s))
  {
  }

  /** Placing `s` on an empty cell cannot give a different mark `t` a line it did not already have. */
  lemma PlacingDoesNotHelpOthers(b: Board, i: Index, s: Mark)
    requires b[i] == None
    ensures forall t: Mark | t != s :: CheckWinner(b[i := s], t) ==> CheckWinner(b, t)
  {
  }

  /** Number of cells of `b` holding `m`. */
  function Count(b: seq<Mark>, m: Mark): (n: nat)
    ensures n <= |b|
    ensures n == 0 <==> forall i | 0 <= i < |b| :: b[i] != m
    ensures n == |b| <==> forall i | 0 <= i < |b| :: b[i] == m
  {
    if |b| == 0 then 0
    else (if b[0] == m then 1 else 0) + Count(b[1..], m)
  }

  /** Writing `v` at position `i` moves one cell out of `b[i]`'s count and into `v`'s. */
  lemma {:induction false} CountUpdate(b: seq<Mark>, i: int, v: Mark, m: Mark)
    requires 0 <= i < |b|
    ensures Count(b[i := v], m) ==
            Count(b, m) - (if b[i] == m then 1 else 0) + (if v == m then 1 else 0)
  {
    if i == 0 {
      assert b[i := v][1..] == b[1..];
    } else {
      assert b[i := v][1..] == b[1..][i - 1 := v];
      CountUpdate(b[1..], i - 1, v, m);
    }
  }

  /** Three distinct cells holding `m` make a count of at least three. */
  lemma ThreeCellsCount(b: seq<Mark>, i: int, j: int, k: int, m: Mark)
    requires 0 <= i < |b| && 0 <= j < |b| && 0 <= k < |b|
    requires i != j && j != k && i != k
    requires b[i] == m && b[j] == m && b[k] == m
    ensures Count(b, m) >= 3
  {
    var v: Mark := if m == None then Some(X) else None;
    CountUpdate(b, i, v, m);
    CountUpdate(b[i := v], j, v, m);
    assert b[i := v][j := v][k] == m;
  }

  /** Whoever wins holds at least three cells. */
  lemma WinNeedsThreeMarks(b: Board, p: Mark)
    requires CheckWinner(b, p)
    ensures Count(b, p) >= 3
  {
    if b[0] == p && b[1] == p && b[2] == p { ThreeCellsCount(b, 0, 1, 2, p); }
    else if b[3] == p && b[4] == p && b[5] == p { ThreeCellsCount(b, 3, 4, 5, p); }
    else if b[6] == p && b[7] == p && b[8] == p { ThreeCellsCount(b, 6, 7, 8, p); }
    else if b[0] == p && b[3] == p && b[6] == p { ThreeCellsCount(b, 0, 3, 6, p); }
    else if b[1] == p && b[4] == p && b[7] == p { ThreeCellsCount(b, 1, 4, 7, p); }
    else if b[2] == p && b[5] == p && b[8] == p { ThreeCellsCount(b, 2, 5, 8, p); }
    else if b[0] == p && b[4] == p && b[8] == p { ThreeCellsCount(b, 0, 4, 8, p); }
    else { ThreeCellsCount(b, 2, 4, 6, p); }
  }

  /** No cell is `null`. */
  predicate Full(b: Board) {
    forall i: Index :: b[i] != None
  }

  /** Number of cells holding a symbol. */
  function Filled(b: Board): (n: nat)
    ensures n <= 9
    ensures n == 9 <==> Full(b)
    ensures n == 0 <==> b == EmptyBoard
  {
    assert (forall i | 0 <= i < 9 :: b[i] == None) <==> b == EmptyBoard;
    9 - Count(b, None)
  }
}
