/**
 The game state of `GameFunction` in script.js and its transitions: a click on a
 cell, the bot's turn, the reset button and the play-against-the-bot button.
 Rendering, the winner alert and the bot's 500 ms timer are left to the caller;
 `HandleClick` reports whether it would start that timer.
 */
module Game {
  import opened Options
  import opened Board
  import opened PlayerTurns
  import opened Bot

  datatype Game = Game(board: Board, players: Players, active: bool)

  /** What a click does: the new game, and whether `setTimeout(botMove, 500)` is called. */
  datatype ClickResult = ClickResult(game: Game, botScheduled: bool)

  /**
   The state in which the game can be found. The players are in one of the two
   modes with a symbol to move; the number of X's on the board exceeds the
   number of O's by one exactly when O is to move in a running game or X has
   just won; and the game stops only when the player still to move has won.
   In two-human mode a running game has no winner yet.
   */
  predicate Valid(g: Game) {
    && ValidPlayers(g.players)
    && Count(g.board, Some(X)) - Count(g.board, Some(O)) ==
         (if (g.players.current == Some(O)) == g.active then 1 else 0)
    && (!g.active ==> CheckWinner(g.board, g.players.current))
    && (TwoHumanMode(g.players) && g.active ==>
          !CheckWinner(g.board, Some(X)) && !CheckWinner(g.board, Some(O)))
  }

  /** A cleared board with X to move is a valid start in either mode. */
  lemma ClearedBoardValid(p: Players)
    ensures ValidPlayers(p) && p.current == Some(X) ==> Valid(Game(EmptyBoard, p, true))
  {
  }

  /**
   An accepted move keeps the game valid: after a win the game stops with the
   winner still to move, otherwise the turn passes to the other symbol.
   */
  lemma AcceptedMoveKeepsValid(g: Game, index: Index)
    requires Accepted(g, index)
    ensures var board := g.board[index := g.players.current];
      Valid(g) ==>
        if CheckWinner(board, g.players.current) then Valid(Game(board, g.players, false))
        else Valid(Game(board, SwitchPlayer(g.players), true))
  {
    if !Valid(g) { return; }
    var current := g.players.current;
    CountUpdate(g.board, index, current, Some(X));
    CountUpdate(g.board, index, current, Some(O));
    PlacingDoesNotHelpOthers(g.board, index, current);
    SwitchAlternates(g.players);
  }

  /** The bot's move, made when it is the bot's turn in a running game, keeps the game valid. */
  lemma BotPlacementKeepsValid(g: Game, i: Index)
    requires g.board[i] == None
    ensures Valid(g) && g.players.current == g.players.bot && g.active ==>
      Valid(Game(g.board[i := g.players.bot], SwitchPlayer(g.players), g.active))
  {
    if !(Valid(g) && g.players.current == g.players.bot && g.active) { return; }
    CountUpdate(g.board, i, g.players.bot, Some(X));
    CountUpdate(g.board, i, g.players.bot, Some(O));
    SwitchAlternates(g.players);
  }

  /** `GameFunction()` as it starts: an empty board, `new Players("X", "O", null)`, the game running. */
  function Start(): (g: Game)
    ensures g.board == EmptyBoard && g.active
    ensures TwoHumanMode(g.players) && g.players.current == Some(X)
  {
    Game(EmptyBoard, NewPlayers(Some(X), Some(O), None), true)
  }

  lemma StartIsValid()
    ensures Valid(Start())
  {
    ClearedBoardValid(Start().players);
  }

  /** A click on cell `index` is accepted: the game is running and the cell is `null`. */
  predicate Accepted(g: Game, index: Index) {
    g.active && g.board[index] == None
  }

  /**
   `handleClick`: a click on a stopped game or an occupied cell changes nothing.
   Otherwise the current player's value is written into that cell alone; if that
   wins, the game stops with the turn unchanged, else the turn switches and the
   bot's timer is started when the turn has passed to the bot slot.
   */
  function HandleClick(g: Game, index: Index): (r: ClickResult)
    ensures !Accepted(g, index) ==> r == ClickResult(g, false)
    ensures Accepted(g, index) ==>
      && r.game.board[index] == g.players.current
      && (forall j: Index | j != index :: r.game.board[j] == g.board[j])
      && (r.game.active <==> !CheckWinner(r.game.board, g.players.current))
    ensures Accepted(g, index) && !r.game.active ==>
      r.game.players == g.players && !r.botScheduled
    ensures Accepted(g, index) && r.game.active ==>
      r.game.players == SwitchPlayer(g.players) &&
      (r.botScheduled <==> r.game.players.current == g.players.bot)
  {
    if !g.active || g.board[index] != None then
      ClickResult(g, false)
    else
      var board: Board := g.board[index := g.players.current];
      if CheckWinner(board, g.players.current) then
        ClickResult(Game(board, g.players, false), false)
      else
        var players := SwitchPlayer(g.players);
        ClickResult(Game(board, players, true), players.current == players.bot && g.active)
  }

  /** An accepted click by a player holding a symbol fills exactly one more cell. */
  lemma ClickFillsOneCell(g: Game, index: Index)
    requires Accepted(g, index) && g.players.current.Some?
    ensures Filled(HandleClick(g, index).game.board) == Filled(g.board) + 1
  {
    CountUpdate(g.board, index, g.players.current, None);
  }

  /**
   A click keeps the game valid, and it starts the bot's timer only in bot mode,
   with the game running and O, the bot, to move.
   */
  lemma ClickKeepsValid(g: Game, index: Index)
    requires Valid(g)
    ensures Valid(HandleClick(g, index).game)
    ensures HandleClick(g, index).botScheduled ==>
      var h := HandleClick(g, index).game;
      BotMode(h.players) && h.players.current == Some(O) && h.active
  {
    if Accepted(g, index) {
      AcceptedMoveKeepsValid(g, index);
    }
  }

  /**
   `botMove`: the bot's symbol goes into the empty cell `ChooseBotCell` picks
   against player1's symbol, every other cell keeps its value, and the turn
   switches. Nothing is checked first and no win is looked for afterwards, so
   the running flag never changes. On a full board no rule applies and nothing
   changes.
   */
  function BotMove(g: Game): (r: Game)
    ensures Full(g.board) ==> r == g
    ensures !Full(g.board) ==>
      && (exists i: Index :: g.board[i] == None && r.board == g.board[i := g.players.bot])
      && r.players == SwitchPlayer(g.players)
    ensures r.active == g.active
  {
    match ChooseBotCell(g.board, g.players.bot, g.players.player1)
    case None => g
    case Some(i) => Game(g.board[i := g.players.bot], SwitchPlayer(g.players), g.active)
  }

  /** In bot mode, a bot move on a board with an empty cell fills exactly one more cell. */
  lemma BotMoveFillsOneCell(g: Game)
    requires !Full(g.board) && g.players.bot.Some?
    ensures Filled(BotMove(g).board) == Filled(g.board) + 1
  {
    var i := ChooseBotCell(g.board, g.players.bot, g.players.player1).value;
    CountUpdate(g.board, i, g.players.bot, None);
  }

  /** The bot's move, made when it is the bot's turn in a running game, keeps the game valid. */
  lemma BotMoveKeepsValid(g: Game)
    requires Valid(g) && g.players.current == g.players.bot && g.active
    ensures Valid(BotMove(g))
  {
    match ChooseBotCell(g.board, g.players.bot, g.players.player1)
    case None =>
    case Some(i) => BotPlacementKeepsValid(g, i);
  }

  /**
   `resetGame`: an empty board, the game running, player1 to move, and back in
   two-human mode whatever the mode was.
   */
  function Reset(g: Game): (r: Game)
    ensures r.board == EmptyBoard && r.active
    ensures r.players.player1 == g.players.player1 && r.players.current == g.players.player1
    ensures r.players.player2 == Some(O) && r.players.bot == None
    ensures Valid(g) ==> r == Start()
  {
    Game(EmptyBoard, Players(g.players.player1, Some(O), None, g.players.player1), true)
  }

  /**
   The handler of the play-against-the-bot button: as `Reset`, but the second
   human is removed and the bot takes O.
   */
  function PlayAgainstBot(g: Game): (r: Game)
    ensures r.board == EmptyBoard && r.active
    ensures r.players.player1 == g.players.player1 && r.players.current == g.players.player1
    ensures r.players.player2 == None && r.players.bot == Some(O)
    ensures Reset(r) == Reset(g)
  {
    Game(EmptyBoard, Players(g.players.player1, None, Some(O), g.players.player1), true)
  }

  lemma PlayAgainstBotIsValid(g: Game)
    requires Valid(g)
    ensures Valid(PlayAgainstBot(g)) && BotMode(PlayAgainstBot(g).players)
  {
    ClearedBoardValid(PlayAgainstBot(g).players);
  }

  /** What the page can deliver to the game. */
  datatype Event = CellClicked(index: Index) | ResetClicked | BotButtonClicked

  /**
   One event, processed to completion. A click that starts the bot's timer is
   followed by the bot's move as a separate synchronous step. A refused click
   changes nothing and lets the bot make no move; an accepted click in a valid
   game leaves the clicked cell with the mover's symbol even after the bot's
   reply, and when the bot replied on a board with room left, the turn is back
   with player1 and the game still runs. Both buttons clear the board and
   restart the game, in the mode each button selects.
   */
  function Step(g: Game, e: Event): (r: Game)
    ensures e.CellClicked? && !Accepted(g, e.index) ==> r == g
    ensures e.CellClicked? && Accepted(g, e.index) && Valid(g) ==>
      r.board[e.index] == g.players.current
    ensures e.CellClicked? && Valid(g) && HandleClick(g, e.index).botScheduled &&
            !Full(HandleClick(g, e.index).game.board) ==>
      r.players.current == Some(X) && r.active
    ensures !e.CellClicked? ==> r.board == EmptyBoard && r.active
    ensures e.ResetClicked? && Valid(g) ==> TwoHumanMode(r.players)
    ensures e.BotButtonClicked? && Valid(g) ==> BotMode(r.players)
  {
    match e
    case CellClicked(i) =>
      var c := HandleClick(g, i);
      if c.botScheduled then BotMove(c.game) else c.game
    case ResetClicked => Reset(g)
    case BotButtonClicked => PlayAgainstBot(g)
  }

  /** A sequence of events, in order. */
  function Run(g: Game, events: seq<Event>): Game
    decreases |events|
  {
    if |events| == 0 then g else Run(Step(g, events[0]), events[1..])
  }

  lemma StepKeepsValid(g: Game, e: Event)
    requires Valid(g)
    ensures Valid(Step(g, e))
  {
    match e
    case CellClicked(i) =>
      ClickKeepsValid(g, i);
      var c := HandleClick(g, i);
      if c.botScheduled {
        BotMoveKeepsValid(c.game);
      }
    case ResetClicked =>
      StartIsValid();
    case BotButtonClicked =>
      PlayAgainstBotIsValid(g);
  }

  /** Every game reached from a valid one by any sequence of events is valid. */
  lemma {:induction false} RunKeepsValid(g: Game, events: seq<Event>)
    requires Valid(g)
    ensures Valid(Run(g, events))
    decreases |events|
  {
    if |events| > 0 {
      StepKeepsValid(g, events[0]);
      RunKeepsValid(Step(g, events[0]), events[1..]);
    }
  }
}
