/**
 The `Players` class of script.js: three player slots and the pointer to the
 player whose turn it is. Every slot holds a JavaScript value, a symbol or `null`.
 */
module PlayerTurns {
  import opened Options
  import opened Board

  datatype Players = Players(player1: Mark, player2: Mark, bot: Mark, current: Mark)

  /** `new Players(player1, player2, bot)`: the bot slot starts `null` whatever is passed for it. */
  function NewPlayers(player1: Mark, player2: Mark, bot: Mark): (p: Players)
    ensures p.player1 == player1 && p.player2 == player2
    ensures p.bot == None
    ensures p.current == player1
  {
    Players(player1, player2, None, player1)
  }

  /** The constructor's result does not depend on its `bot` argument. */
  lemma NewPlayersIgnoresBot(player1: Mark, player2: Mark, bot: Mark, bot': Mark)
    ensures NewPlayers(player1, player2, bot) == NewPlayers(player1, player2, bot')
  {
  }

  /**
   `switchPlayer()`: from player1 the turn goes to player2 when that slot is set
   (a symbol is truthy, `null` is not) and to the bot slot otherwise; from anyone
   else it goes back to player1. Only the turn pointer changes.
   */
  function SwitchPlayer(p: Players): (r: Players)
    ensures r.player1 == p.player1 && r.player2 == p.player2 && r.bot == p.bot
    ensures p.current == p.player1 && p.player2.Some? ==> r.current == p.player2
    ensures p.current == p.player1 && p.player2.None? ==> r.current == p.bot
    ensures p.current != p.player1 ==> r.current == p.player1
  {
    if p.current == p.player1 then
      if p.player2.Some? then p.(current := p.player2) else p.(current := p.bot)
    else
      p.(current := p.player1)
  }

  /** Two-human mode: X against a human O. */
  predicate TwoHumanMode(p: Players) {
    p.player1 == Some(X) && p.player2 == Some(O) && p.bot == None
  }

  /** Bot mode: X against the bot playing O. */
  predicate BotMode(p: Players) {
    p.player1 == Some(X) && p.player2 == None && p.bot == Some(O)
  }

  /** The slot configurations the game can reach, with a symbol to move. */
  predicate ValidPlayers(p: Players) {
    (TwoHumanMode(p) || BotMode(p)) && (p.current == Some(X) || p.current == Some(O))
  }

  function Other(s: Sym): Sym {
    if s == X then O else X
  }

  /** Switching twice from player1 comes back to player1, whatever the other slots hold. */
  lemma SwitchTwiceFromPlayer1(p: Players)
    requires p.current == p.player1
    ensures SwitchPlayer(SwitchPlayer(p)) == p
  {
  }

  /** In a reachable configuration the turn alternates strictly between X and O. */
  lemma SwitchAlternates(p: Players)
    requires ValidPlayers(p)
    ensures ValidPlayers(SwitchPlayer(p))
    ensures SwitchPlayer(p).current == Some(Other(p.current.value))
    ensures SwitchPlayer(SwitchPlayer(p)) == p
  {
  }
}
