# Tic-tac-toe game engine

A Dafny model of the game logic in `script.js`, a browser tic-tac-toe game. Two
humans can play each other, or one human can play a bot. The model covers:

- the 3x3 board of nine cells and the eight winning combinations;
- `checkWinner`;
- the `Players` object, with its constructor and `switchPlayer`;
- `handleClick`, without its DOM writes;
- `botMove`, with its five rules: win, block, centre, corner, side;
- `resetGame`;
- the handler of the play-against-the-bot button.

A cell and a player slot hold the same kind of JavaScript value: `null`, `"X"` or
`"O"`. The model writes this as `Mark = Option<Sym>`, where `None` stands for `null`.
The engine's globals `gameBoard`, `players` and `gameActive` form one immutable
`Game` record. Every handler is a pure function from one `Game` to the next.

Modules:

- `Board` (board.dfy): the board, `WinningCombinations`, `CheckWinner`, and cell counts.
- `PlayerTurns` (players.dfy): the `Players` record, `NewPlayers`, `SwitchPlayer`, and the two modes.
- `Bot` (bot.dfy): `ChooseBotCell`, the bot's choice as a pure function. It also holds
  `TrialAndRevert`, which runs the source's scan over a mutable array. That scan places
  a trial symbol and then sets the cell back to `null`. The method is proved to pick
  the same cell as `ChooseBotCell` and to leave the same board.
- `Game` (game.dfy): the game state, with `HandleClick`, `BotMove`, `Reset` and
  `PlayAgainstBot`. `Step` processes one page event and `Run` processes a sequence of
  them. The invariant `Valid` holds in every game reachable from the start.
- `Scenarios` (scenarios.dfy): whole-game facts and concrete plays.

The model keeps the code's behaviour as written:

- There is no draw detection. On a full board every click is refused by the
  occupied-cell check, and the bot finds no cell (`FullBoardIsStuck`).
- The bot's move never looks for a win and never stops the game. The bot can
  therefore complete a line while the game keeps running with X to move
  (`BotWinGoesUnnoticed`).
- The reset button always returns to two-human mode, whatever mode was being played.
- The `Players` constructor ignores its `bot` argument.
- `switchPlayer` compares the turn with the player1 slot. It uses the player2
  slot when that slot is set, and the bot slot otherwise. It does not swap X and O
  directly. In the two reachable modes this still makes the turn alternate
  (`SwitchAlternates`).

## Model

| member | source | states |
|---|---|---|
| Board.SomeCombination | script.js:167-168 | The scan over the combinations is true iff some combination from the given position on has all its cells equal to the player's value |
| Board.CheckWinner | script.js:166-174 | `checkWinner(p)` is true iff `p` holds all three cells of one of the three rows, three columns or two diagonals |
| Board.NoWinnerOnEmptyBoard | script.js:34 | On the all-`null` board neither X nor O has won |
| Board.PlacingDoesNotHelpOthers | script.js:82-86 | Writing a mark into an empty cell gives no other mark a line it did not already have, which is why checking only the mover is enough |
| Board.CountUpdate | script.js:60 | Writing a value into a cell moves exactly one cell from the old value's count to the new value's count |
| Board.ThreeCellsCount | script.js:41-50 | Three distinct cells holding a mark make that mark's count at least three |
| Board.WinNeedsThreeMarks | script.js:41-50 | Whoever satisfies `checkWinner` holds at least three cells |
| Board.Filled | script.js:58 | The number of non-`null` cells is at most nine; it is nine exactly when the board is full, and zero exactly on the empty board |
| PlayerTurns.NewPlayers | script.js:6-11 | The constructor keeps player1 and player2, sets the bot slot to `null` whatever is passed, and gives the turn to player1 |
| PlayerTurns.NewPlayersIgnoresBot | script.js:9 | The constructed object does not depend on the `bot` argument |
| PlayerTurns.SwitchPlayer | script.js:13-26 | From player1 the turn goes to player2 if that slot is set, else to the bot slot; from anyone else it returns to player1; the slots are unchanged |
| PlayerTurns.SwitchTwiceFromPlayer1 | script.js:13-26 | Switching twice from player1 returns to player1, whatever the other slots hold |
| PlayerTurns.SwitchAlternates | script.js:13-26 | In both reachable modes a switch passes the turn to the other symbol, and two switches are the identity |
| Bot.ScanCompleting | script.js:108-120 | The trial loop returns the lowest cell from its start on that is empty and wins for the trial symbol, or nothing when there is no such cell |
| Bot.ScanFree | script.js:145-152 | The loop over a fixed list of cells returns the first listed empty cell, or nothing when all listed cells are taken |
| Bot.CentreCornersSidesCover | script.js:136-162 | When the centre, the four corners and the four sides are all taken, the board is full |
| Bot.NoCompletingWithFewMarks | script.js:108-134 | A symbol with fewer than two marks on the board has no cell that completes a line for it |
| Bot.ChooseBotCell | script.js:96-163 | The bot picks an empty cell, and picks one exactly when the board is not full. The first rule that applies decides: the lowest cell that wins for the bot, else the lowest cell that would win for player1, else the centre, else the first free corner of 0, 2, 6, 8, else the first free side of 1, 3, 5, 7 |
| Bot.TrialScan | script.js:108-134 | Trial-and-revert over the live array finds the same cell as `ScanCompleting`; no trial survives except a winning one in the cell found |
| Bot.FreeScan | script.js:145-162 | The loop over corners or sides finds the same cell as `ScanFree` |
| Bot.Decide | script.js:106-162 | The full decision over the live array equals `ChooseBotCell`, and only the chosen cell may differ from the board it started with |
| Bot.TrialAndRevert | script.js:96-163 | `botMove` over a mutable board picks `ChooseBotCell`'s cell, writes the bot's symbol there and leaves every other cell as it was; with no cell chosen the board is unchanged |
| Game.ClearedBoardValid | script.js:197-206 | A cleared board in either mode with X to move satisfies the game invariant |
| Game.AcceptedMoveKeepsValid | script.js:58-89 | An accepted move keeps the invariant: a winning move stops the game with the winner to move, otherwise the turn passes |
| Game.BotPlacementKeepsValid | script.js:100-104 | The bot's placement, made on its turn in a running game, keeps the invariant |
| Game.Start | script.js:33-39 | The game starts with an empty board, running, in two-human mode with X to move |
| Game.StartIsValid | script.js:33-39 | The starting game satisfies the invariant |
| Game.HandleClick | script.js:52-94 | A click on a stopped game or an occupied cell changes nothing and starts no timer. Otherwise the current player's value goes into that cell alone. The game stops exactly when that move wins, and the turn then stays. If the move does not win, the turn switches and the bot's timer starts exactly when the turn has passed to the bot slot |
| Game.ClickFillsOneCell | script.js:58-60 | An accepted click fills exactly one more cell |
| Game.ClickKeepsValid | script.js:89-93 | Every click keeps the invariant; it starts the bot's timer only in bot mode, with the game running and O to move |
| Game.BotMove | script.js:96-163 | The bot's move changes nothing on a full board. Otherwise it writes the bot's symbol into one previously empty cell, leaves the other cells as they were, and switches the turn. It never changes the running flag |
| Game.BotMoveFillsOneCell | script.js:100-104 | In bot mode the bot's move on a board with an empty cell fills exactly one more cell |
| Game.BotMoveKeepsValid | script.js:91-104 | The bot's move, made when its timer can have been started, keeps the invariant |
| Game.Reset | script.js:176-184 | Reset gives an empty board, a running game, player1 to move and two-human mode; from any reachable game it gives the starting game |
| Game.PlayAgainstBot | script.js:197-206 | The bot button gives an empty board, a running game and player1 to move, with player2 removed and the bot on O; it differs from a reset only in the mode |
| Game.PlayAgainstBotIsValid | script.js:197-206 | The bot button leads to a valid game in bot mode |
| Game.Step | script.js:186-206 | A cell click runs `handleClick` and, when that starts the bot's timer, the bot's move at once; a refused click changes nothing, the clicked cell keeps the mover's symbol after the bot's reply, and after a reply on a board with room left X is to move in a running game. The reset button and the bot button clear the board and restart in two-human mode and bot mode respectively |
| Game.StepKeepsValid | script.js:186-206 | Every page event, including the bot's reply to a click, keeps the invariant |
| Game.RunKeepsValid | script.js:186-206 | Every sequence of events from a valid game ends in a valid game |
| Scenarios.FullBoardIsStuck | script.js:58 | On a full board every click is refused and the bot's move changes nothing: there is no draw state |
| Scenarios.ResetAfterAnyPlay | script.js:176-184 | After any sequence of events from the start, a reset gives back the starting game |
| Scenarios.OpeningReplyIsCentre | script.js:136-141 | After X's first move, the bot takes the centre if X left it free |
| Scenarios.WinBeforeBlock | script.js:108-134 | On X X _ / O O _ / _ _ _ the bot wins at 5 rather than block at 2 |
| Scenarios.BlockBeforeCentre | script.js:122-141 | On X X _ / O _ _ / _ _ _ the bot blocks at 2 rather than take the centre |
| Scenarios.TopRowEndsTheGame | script.js:82-86 | In two-human play, X at 0, O at 3, X at 1, O at 4, X at 2 wins for X and stops the game; a later click on 5 changes nothing |
| Scenarios.BotWinGoesUnnoticed | script.js:100-104 | The bot can complete a diagonal while the game keeps running with X to move, and X's next click is accepted |

## Left out

- DOM lookups, `textContent` and `innerHTML` writes, and the creation and wiring of the buttons (script.js:1-3, 72, 102, 178, 186-195) are left out. They only render; the model keeps the state changes.
- The `alert` that announces a winner (script.js:83) is left out. It is UI output, and the model keeps only the game stopping.
- `setTimeout(botMove, 500)` (script.js:92) is modelled only as the `botScheduled` flag of `HandleClick`. `Step` runs the bot's move right after such a click. A reset or a human click during the 500 ms delay is a race between timer callbacks and is not modelled.
- `dataset.index` is a string coerced to a number (script.js:53). The model takes the clicked cell as a number from 0 to 8, the `Index` type, since only the nine squares carry the listener.
- `getCurrentPlayer` (script.js:28-30) is a plain field read, `players.current`.
- Draw detection is left out because the code has none.
