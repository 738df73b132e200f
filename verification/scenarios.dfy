/**
 Whole-game facts and concrete plays of the model. The concrete plays take the
 position as a parameter equal to a fixed board, so that each is checked by
 reasoning about that one position.
 */
module Scenarios {
  import opened Options
  import opened Board
  import opened PlayerTurns
  import opened Bot
  import opened Game

  /**
   There is no draw: once the board is full, every click is refused and the
   bot finds no cell, so the game stays exactly as it is until a button is pressed.
   */
  lemma FullBoardIsStuck(g: Game, i: Index)
    requires Full(g.board)
    ensures Step(g, CellClicked(i)) == g
    ensures BotMove(g) == g
  {
  }

  /** After any sequence of events from the start, resetting gives the start again. */
  lemma ResetAfterAnyPlay(events: seq<Event>)
    ensures Reset(Run(Start(), events)) == Start()
  {
    StartIsValid();
    RunKeepsValid(Start(), events);
  }

  /** `Run` takes the first event and carries on with the rest. */
  lemma RunFirst(g: Game, events: seq<Event>)
    requires |events| > 0
    ensures Run(g, events) == Run(Step(g, events[0]), events[1..])
  {
  }

  const Xs: Mark := Some(X)
  const Os: Mark := Some(O)
  const E: Mark := None

  /** The bot's answer to X's opening move is the centre, whenever X left it free. */
  lemma OpeningReplyIsCentre(b: Board)
    requires Count(b, Xs) == 1 && Count(b, Os) == 0 && b[Centre] == None
    ensures ChooseBotCell(b, Os, Xs) == Some(Centre)
  {
    NoCompletingWithFewMarks(b, X);
    NoCompletingWithFewMarks(b, O);
  }

  /** With a win of its own at 5 and a threat to block at 2, the bot wins. */
  lemma WinBeforeBlock(b: Board)
    requires b == [Xs, Xs, E, Os, Os, E, E, E, E]
    ensures ChooseBotCell(b, Os, Xs) == Some(5)
  {
    assert Completes(b, 5, Os);
  }

  /** With no win of its own, the bot blocks X's row at 2. */
  lemma BlockBeforeCentre(b: Board)
    requires b == [Xs, Xs, E, Os, E, E, E, E, E]
    ensures ChooseBotCell(b, Os, Xs) == Some(2)
  {
    var before: Board := [Xs, Xs, E, E, E, E, E, E, E];
    CountUpdate(before, 3, Os, Os);
    assert before[3 := Os] == b;
    NoCompletingWithFewMarks(b, O);
    assert Completes(b, 2, Xs);
  }

  /** A click that starts no timer is the whole step. */
  lemma StepWithoutBot(g: Game, i: Index)
    requires !HandleClick(g, i).botScheduled
    ensures Step(g, CellClicked(i)) == HandleClick(g, i).game
  {
  }

  // Two humans: X at 0, O at 3, X at 1, O at 4, X at 2.
  const Top1 := Game([Xs, E, E, E, E, E, E, E, E], Players(Xs, Os, E, Os), true)
  const Top2 := Game([Xs, E, E, Os, E, E, E, E, E], Players(Xs, Os, E, Xs), true)
  const Top3 := Game([Xs, Xs, E, Os, E, E, E, E, E], Players(Xs, Os, E, Os), true)
  const Top4 := Game([Xs, Xs, E, Os, Os, E, E, E, E], Players(Xs, Os, E, Xs), true)
  const Top5 := Game([Xs, Xs, Xs, Os, Os, E, E, E, E], Players(Xs, Os, E, Xs), false)

  lemma TopRowMove1(g: Game)
    requires g == Start()
    ensures Step(g, CellClicked(0)) == Top1
  {
    assert HandleClick(g, 0).game == Top1;
    StepWithoutBot(g, 0);
  }

  lemma TopRowMove2(g: Game)
    requires g == Top1
    ensures Step(g, CellClicked(3)) == Top2
  {
    assert HandleClick(g, 3).game == Top2;
    StepWithoutBot(g, 3);
  }

  lemma TopRowMove3(g: Game)
    requires g == Top2
    ensures Step(g, CellClicked(1)) == Top3
  {
    assert HandleClick(g, 1).game == Top3;
    StepWithoutBot(g, 1);
  }

  lemma TopRowMove4(g: Game)
    requires g == Top3
    ensures Step(g, CellClicked(4)) == Top4
  {
    assert HandleClick(g, 4).game == Top4;
    StepWithoutBot(g, 4);
  }

  lemma TopRowMove5(g: Game)
    requires g == Top4
    ensures Step(g, CellClicked(2)) == Top5
  {
    assert HandleClick(g, 2).game == Top5;
    StepWithoutBot(g, 2);
  }

  /** X takes the top row in two-human mode; the game stops and a later click on 5 is refused. */
  lemma TopRowEndsTheGame(events: seq<Event>)
    requires events == [CellClicked(0), CellClicked(3), CellClicked(1), CellClicked(4), CellClicked(2)]
    ensures var g := Run(Start(), events);
      && CheckWinner(g.board, Xs)
      && !g.active
      && g.players.current == Xs
      && Step(g, CellClicked(5)) == g
  {
    TopRowMove1(Start());
    TopRowMove2(Top1);
    TopRowMove3(Top2);
    TopRowMove4(Top3);
    TopRowMove5(Top4);
    RunFirst(Start(), events);
    RunFirst(Top1, events[1..]);
    RunFirst(Top2, events[2..]);
    RunFirst(Top3, events[3..]);
    RunFirst(Top4, events[4..]);
    assert events[4..][1..] == [];
  }

  /**
   In bot mode the bot can complete a line without the game noticing: with X
   on 0, 1 and 3 and the bot on 2 and 4, the bot takes 6 and holds the diagonal
   2-4-6, yet the game is still running with X to move, who may go on clicking.
   */
  lemma BotWinGoesUnnoticed(g: Game)
    requires g == Game([Xs, Xs, Os, Xs, Os, E, E, E, E], Players(Xs, E, Os, Os), true)
    ensures var r := BotMove(g);
      && r.board == [Xs, Xs, Os, Xs, Os, E, Os, E, E]
      && CheckWinner(r.board, Os)
      && r.active
      && r.players.current == Xs
      && HandleClick(r, 5).game.board[5] == Xs
  {
    assert !Completes(g.board, 5, Os);
    assert Completes(g.board, 6, Os);
  }
}
