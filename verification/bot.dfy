/**
 The bot's choice in `botMove`: win, else block, else centre, else a corner,
 else a side. `ChooseBotCell` is the choice as a pure function; `TrialAndRevert`
 is the source's scan over a mutable board, which places a trial symbol and
 takes it back, and is proved to choose the same cell and leave the same board.
 */
module Bot {
  import opened Options
  import opened Board

  const Centre: Index := 4
  /** `corners` */
  const Corners: seq<Index> := [0, 2, 6, 8]
  /** `sides` */
  const Sides: seq<Index> := [1, 3, 5, 7]

  /** Cell `i` is empty and putting `s` there makes `checkWinner(s)` true. */
  predicate Completes(b: Board, i: Index, s: Mark) {
    b[i] == None && CheckWinner(b[i := s], s)
  }

  predicate HasCompleting(b: Board, s: Mark) {
    exists i: Index :: Completes(b, i, s)
  }

  /** `i` is the lowest-numbered cell that completes a line for `s`. */
  predicate LeastCompleting(b: Board, i: Index, s: Mark) {
    Completes(b, i, s) && forall j: Index | j < i :: !Completes(b, j, s)
  }

  /** With fewer than two of its marks on the board, a symbol has no line to complete. */
  lemma NoCompletingWithFewMarks(b: Board, s: Sym)
    requires Count(b, Some(s)) < 2
    ensures !HasCompleting(b, Some(s))
  {
    forall i: Index | Completes(b, i, Some(s))
      ensures false
    {
      WinNeedsThreeMarks(b[i := Some(s)], Some(s));
      CountUpdate(b, i, Some(s), Some(s));
    }
  }

  /** Some cell listed in `order` is empty. */
  predicate AnyFree(b: Board, order: seq<Index>) {
    exists k | 0 <= k < |order| :: b[order[k]] == None
  }

  /** `i` is the first empty cell in `order`. */
  predicate FirstFree(b: Board, order: seq<Index>, i: Index) {
    exists k | 0 <= k < |order| ::
      order[k] == i && b[i] == None && forall k' | 0 <= k' < k :: b[order[k']] != None
  }

  /**
   The loop `for (let i = from; i < gameBoard.length; i++)` that tries `s` in each
   empty cell, returning the first cell where `s` wins.
   */
  function ScanCompleting(b: Board, s: Mark, from: nat): (r: Option<Index>)
    requires from <= 9
    decreases 9 - from
    ensures r.Some? ==>
      from <= r.value && Completes(b, r.value, s) &&
      forall j: Index | from <= j < r.value :: !Completes(b, j, s)
    ensures r.None? ==> forall j: Index | from <= j :: !Completes(b, j, s)
  {
    if from == 9 then None
    else if Completes(b, from, s) then Some(from)
    else ScanCompleting(b, s, from + 1)
  }

  /** `for (const c of order) if (gameBoard[c] === null) ...`, from position `from` on. */
  function ScanFree(b: Board, order: seq<Index>, from: nat): (r: Option<Index>)
    requires from <= |order|
    decreases |order| - from
    ensures r.Some? ==>
      exists k | from <= k < |order| ::
        order[k] == r.value && b[r.value] == None &&
        forall k' | from <= k' < k :: b[order[k']] != None
    ensures r.None? ==> forall k | from <= k < |order| :: b[order[k]] != None
  {
    if from == |order| then None
    else if b[order[from]] == None then Some(order[from])
    else ScanFree(b, order, from + 1)
  }

  /** When the centre, every corner and every side are taken, so is every cell. */
  lemma CentreCornersSidesCover(b: Board)
    requires b[Centre] != None
    requires forall k | 0 <= k < |Corners| :: b[Corners[k]] != None
    requires forall k | 0 <= k < |Sides| :: b[Sides[k]] != None
    ensures Full(b)
  {
    assert b[Corners[0]] != None && b[Corners[1]] != None;
    assert b[Corners[2]] != None && b[Corners[3]] != None;
    assert b[Sides[0]] != None && b[Sides[1]] != None;
    assert b[Sides[2]] != None && b[Sides[3]] != None;
  }

  /**
   The cell `botMove` plays for `botSymbol` against `playerSymbol`, or None when
   no rule applies. The rules are tried in order and the first that applies
   decides; some rule applies exactly when the board has an empty cell.
   */
  function ChooseBotCell(b: Board, botSymbol: Mark, playerSymbol: Mark): (r: Option<Index>)
    ensures r.Some? ==> b[r.value] == None
    ensures r.None? <==> Full(b)
    ensures HasCompleting(b, botSymbol) ==>
      r.Some? && LeastCompleting(b, r.value, botSymbol)
    ensures !HasCompleting(b, botSymbol) && HasCompleting(b, playerSymbol) ==>
      r.Some? && LeastCompleting(b, r.value, playerSymbol)
    ensures !HasCompleting(b, botSymbol) && !HasCompleting(b, playerSymbol) && b[Centre] == None ==>
      r == Some(Centre)
    ensures !HasCompleting(b, botSymbol) && !HasCompleting(b, playerSymbol) && b[Centre] != None &&
            AnyFree(b, Corners) ==>
      r.Some? && FirstFree(b, Corners, r.value)
    ensures !HasCompleting(b, botSymbol) && !HasCompleting(b, playerSymbol) && b[Centre] != None &&
            !AnyFree(b, Corners) && AnyFree(b, Sides) ==>
      r.Some? && FirstFree(b, Sides, r.value)
  {
    match ScanCompleting(b, botSymbol, 0)
    case Some(i) => Some(i)
    case None =>
      match ScanCompleting(b, playerSymbol, 0)
      case Some(i) => Some(i)
      case None =>
        if b[Centre] == None then Some(Centre)
        else
          match ScanFree(b, Corners, 0)
          case Some(i) => Some(i)
          case None =>
            var side := ScanFree(b, Sides, 0);
            if side.Some? then side
            else CentreCornersSidesCover(b); None
  }

  /**
   One of `botMove`'s two trial loops over the live board: each empty cell gets
   `trial`, `checkWinner(trial)` is asked, and the cell is set back to `null`
   unless the trial wins, in which case the loop stops with the trial in place.
   */
  method TrialScan(gameBoard: array<Mark>, ghost b: Board, trial: Mark) returns (found: Option<Index>)
    requires gameBoard.Length == 9 && gameBoard[..] == b
    modifies gameBoard
    ensures found == ScanCompleting(b, trial, 0)
    ensures found.Some? ==> gameBoard[..] == b[found.value := trial]
    ensures found.None? ==> gameBoard[..] == b
  {
    var i := 0;
    while i < 9
      invariant 0 <= i <= 9
      invariant gameBoard[..] == b
      invariant forall j: Index | j < i :: !Completes(b, j, trial)
    {
      if gameBoard[i] == None {
        gameBoard[i] := trial;
        if CheckWinner(gameBoard[..], trial) {
          return Some(i);
        }
        gameBoard[i] := None;
        assert gameBoard[..] == b;
      }
      i := i + 1;
    }
    return None;
  }

  /** `for (const c of order) if (gameBoard[c] === null)`: the first empty cell listed in `order`. */
  method FreeScan(gameBoard: array<Mark>, ghost b: Board, order: seq<Index>) returns (found: Option<Index>)
    requires gameBoard.Length == 9 && gameBoard[..] == b
    ensures found == ScanFree(b, order, 0)
  {
    var k := 0;
    while k < |order|
      invariant 0 <= k <= |order|
      invariant forall k' | 0 <= k' < k :: b[order[k']] != None
    {
      if gameBoard[order[k]] == None {
        return Some(order[k]);
      }
      k := k + 1;
    }
    return None;
  }

  /**
   The decision part of `botMove` on the live board: the two trial loops, then
   the centre, the corners and the sides. A winning trial symbol may be left in
   the chosen cell; every other cell is as it was.
   */
  method Decide(gameBoard: array<Mark>, ghost b: Board, botSymbol: Mark, playerSymbol: Mark)
    returns (played: Option<Index>)
    requires gameBoard.Length == 9 && gameBoard[..] == b
    modifies gameBoard
    ensures played == ChooseBotCell(b, botSymbol, playerSymbol)
    ensures forall j: Index | played != Some(j) :: gameBoard[j] == b[j]
  {
    // Can the bot win with this move?
    played := TrialScan(gameBoard, b, botSymbol);
    if played.Some? {
      return;
    }
    // Must it block player1?
    played := TrialScan(gameBoard, b, playerSymbol);
    if played.Some? {
      return;
    }
    if gameBoard[Centre] == None {
      return Some(Centre);
    }
    played := FreeScan(gameBoard, b, Corners);
    if played.Some? {
      return;
    }
    played := FreeScan(gameBoard, b, Sides);
  }

  /**
   `botMove` over a mutable copy of the board, as written: `Decide`, then
   `makeMove` writes the bot's symbol into the chosen cell. Returns the cell
   played, if any, and the board afterwards: the trial placements leave no trace.
   */
  method TrialAndRevert(b: Board, botSymbol: Mark, playerSymbol: Mark)
    returns (played: Option<Index>, after: Board)
    ensures played == ChooseBotCell(b, botSymbol, playerSymbol)
    ensures played.Some? ==> after == b[played.value := botSymbol]
    ensures played.None? ==> after == b
  {
    var gameBoard := new Mark[9](i requires 0 <= i < 9 => b[i]);
    assert gameBoard[..] == b;
    played := Decide(gameBoard, b, botSymbol, playerSymbol);
    if played.Some? {
      gameBoard[played.value] := botSymbol;
    }
    after := gameBoard[..];
    assert played.Some? ==> after == b[played.value := botSymbol];
  }
}
