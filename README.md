# Liar's Dice: table state, protocol dispatcher and client parsers

This project models the core of a networked Liar's Dice server and client in Dafny.

- **Table state** (`Game`, game.dfy):
  - Dice, hands, and the `GameStatus` that seats players.
  - `GameStatus` keeps `dice_count`, a running tally of every face on the table.
  - Its invariant (`GameStatus.Valid`) says that the tally is always the multiset of the faces in the seated hands.
  - Adding a player, removing a player, losing a die and re-rolling every hand each preserve that invariant.
- **Protocol dispatcher** (`Server`, server.dfy):
  - `LiarsGame` is one object per client connection. `LiarGameFactory` is the state they share: the `clients` map, the game status and the `game_started` flag.
  - Each handler returns the lines it sends, in order. A line goes either to a set of registered names through `send_message`, or straight back to the requesting connection.
  - The handlers are: line parsing and routing, username registration, the start rule, the turn-player gate, disconnects, message fan-out and the `player_status` line.
- **Client parsers** (`Client`, player.dfy):
  - They read the `hand` payload (comma-separated faces, sorted ascending) and the `player_status` payload (`name=count` items in order of play).
  - The results are stored in the `Player` fields.
- **Support modules**:
  - `Strings` (strings.dfy) models the Python string operations the protocol relies on: `str.split`, `join`, `int()`, `str()` and `in` between strings.
  - `NetworkCommand` (network_command.dfy) holds the command names and the `:` delimiter.

The dispatcher calls several GameStatus members that the game module does not define: `turn_player`, `player_order`, `get_player_status`, `handle_bet`, `handle_liar`, `handle_spot_on`, `next_round` and `next_turn`. The model gives them no rules:

- What they return comes in through an `Oracle` value.
- Every call to one of them that changes the game is reported as a `GameCall` in the handler's result.

## Model

| member | source | states |
|---|---|---|
| Game.Roll | liars_dice/server/test/test_die.py:10-14 | a rolled die shows a face between 1 and 6 |
| Game.Hand.HaveDie | liars_dice/server/game.py:25-27 | true exactly when the hand holds at least one die (true for several or one, false for none) |
| Game.Hand.DieFace | liars_dice/server/game.py:33-35 | one value per die, in hand order, each the face of that die |
| Game.Hand.Reroll | liars_dice/server/game.py:29-31 | a re-rolled hand has as many dice as before, each showing 1..6 |
| Game.NewHand | liars_dice/server/test/test_hand.py:7-23 | a fresh hand holds more than one die (six), each showing 1..6 |
| Game.RolledFaces | liars_dice/server/test/test_hand.py:20-23 | a rolled hand contributes only faces 1..6 to a tally |
| Game.TallyRemove | liars_dice/server/test/test_gameStatus.py:30-32 | the tally of all hands is one player's faces plus the tally of the others, for any player |
| Game.TallyAdd | liars_dice/server/test/test_gameStatus.py:22-32 | seating a new name adds exactly its hand's faces to the tally |
| Game.TallyDrop | liars_dice/server/test/test_gameStatus.py:39-42 | unseating a name takes exactly its hand's faces out of the tally |
| Game.TallyPop | liars_dice/server/test/test_gameStatus.py:13-20 | dropping the last die of a hand takes exactly one copy of its face out of the tally |
| Game.TallyFaces | liars_dice/server/game.py:59-61 | a tally of rolled hands holds only faces 1..6 |
| Game.TallyHas | liars_dice/server/test/test_gameStatus.py:10-11 | a face is counted in the tally exactly when some seated hand shows it |
| Game.GameStatus.constructor | liars_dice/server/game.py:41-42 | a new table has no players and an empty tally, and is consistent |
| Game.GameStatus.RemoveDie | liars_dice/server/game.py:44-49 | exactly one die (the last) leaves the player's hand, every other hand is untouched, that face leaves the tally, the tally invariant holds, and the result is true iff the hand is now empty |
| Game.GameStatus.AddPlayer | liars_dice/server/game.py:51-53 | exactly one new name is seated, with a fresh six-die hand; other hands are untouched; the tally grows by exactly the new faces and stays consistent |
| Game.GameStatus.RemovePlayer | liars_dice/server/game.py:55-57 | exactly that name leaves, the others are untouched, its faces leave the tally, and the last removal leaves an empty table and an empty tally |
| Game.GameStatus.RerollAll | liars_dice/server/game.py:59-61 | the same names keep hands of the same sizes, the tally equals the new faces, and it holds only faces 1..6 |
| Game.GameStatus.GetWinner | liars_dice/server/game.py:63-65 | a name exactly when one player remains, and then it is that player's name; None otherwise |
| Strings.Split | liars_dice/server/server.py:25 | `str.split` on one character: at least one piece, no piece holds the separator, one piece iff the separator is absent |
| Strings.Join | liars_dice/server/server.py:167-168 | `",".join`: through SplitJoin and JoinSplit, the inverse of `str.split` on separator-free pieces |
| Strings.JoinSplit | liars_dice/server/server.py:25-30 | joining the pieces of a split gives the text back |
| Strings.SplitJoin | liars_dice/server/server.py:167-168 | splitting a join of separator-free pieces gives the pieces back |
| Strings.FirstPiece | liars_dice/server/server.py:26 | the first piece is the text before the first separator |
| Strings.SecondPiece | liars_dice/server/server.py:30 | the second piece is the text between the first and second separators |
| Strings.IsSubstringAt | liars_dice/server/server.py:113 | a string that occurs at some position of another passes Python's `in` between strings |
| Strings.SubstringHasPosition | liars_dice/server/server.py:113 | Python's `in` between strings passes only when the first string occurs at some position of the second |
| Strings.SubstringIff | liars_dice/server/server.py:113 | Python's `in` between strings holds exactly when the first string occurs at some position of the second |
| Strings.FormatInt | liars_dice/server/server.py:168 | `str(i)` is never empty, starts with a minus sign exactly for negative values, and `int()` reads it back as `i`, for every integer |
| Strings.ParseInt | liars_dice/server/server.py:46 | `int(s)` succeeds exactly on an optional sign followed by digits |
| Strings.FormatIntHasNo | liars_dice/server/server.py:168 | the decimal form of an int holds only digits and a leading minus, so never `,`, `=` or `:` |
| Server.ParseLine | liars_dice/server/server.py:24-30 | the command holds no delimiter; the extra field is absent iff the line has no delimiter, and the whole line is then the command; otherwise the line starts with command, delimiter, extra field, and that field ends at the next delimiter or the end |
| Server.ParseFormatted | liars_dice/server/server.py:25-30 | a command and a delimiter-free field joined by the delimiter parse back to both |
| Server.ParseBare | liars_dice/server/server.py:25-28 | a bare command parses to itself with no extra field |
| Server.StatusItem | liars_dice/server/server.py:167 | one `name=count` item; ParseStatusItemFormatted reads it back as the pair when the name holds no `=` |
| Server.StatusPayload | liars_dice/server/server.py:167-168 | the items in status order joined by `,`; ParseStatusFormatted reads it back as the same pairs |
| Server.StatusLine | liars_dice/server/server.py:164-168 | the `player_status` line; StatusLineParses parses it back to that command and the whole payload |
| Server.StatusLineParses | liars_dice/server/server.py:164-168 | the `player_status` line parses back to that command with the whole `name=count,...` payload, when no name holds the delimiter |
| Server.Audience | liars_dice/server/server.py:112-114 | the receivers are registered clients, and all of them when no list is given |
| Server.PlayAudience | liars_dice/server/server.py:153 | the play prompt reaches exactly the named player, if registered, and no one else |
| Server.PlayAudienceAsWritten | liars_dice/server/server.py:153 | the prompt's audience as written (the bare-string recipient): only registered names, always including the player when registered; PlayAudienceAsWrittenLeaks shows it also holds every registered name inside the player's name |
| Server.PlayAudienceAsWrittenLeaks | liars_dice/server/server.py:162 | as written, the prompt reaches every registered name that occurs anywhere inside the player's name, as well as the player |
| Server.PlayPromptReachesAl | liars_dice/server/server.py:153 | with "al" and "alice" registered, the prompt for "alice" reaches both as written, and only "alice" when corrected |
| Server.ParseBet | liars_dice/server/server.py:46 | a bet payload is read exactly when it splits at `,` into two pieces that are both ints, and then it is those two ints |
| Server.ParseBetFormatted | liars_dice/server/server.py:46 | a payload written as `face,number` reads back as the pair |
| Server.LiarGameFactory.constructor | liars_dice/server/server.py:179-182 | no clients, a fresh empty game, not started |
| Server.LiarsGame.constructor | liars_dice/server/server.py:19-20 | a new connection has no username |
| Server.LiarsGame.SendMessage | liars_dice/server/server.py:103-114 | one copy of the message goes to exactly the registered names the recipient argument selects |
| Server.LiarsGame.SendPlayerStatus | liars_dice/server/server.py:164-172 | the `player_status` line, built from the status pairs in order, goes to every client |
| Server.LiarsGame.RollNewRound | liars_dice/server/server.py:142-153 | one `next_round` call, then new round, status, `next_turn:<player>` to all, and the play prompt to the next player's registered name alone (the corrected audience, see ## Findings) |
| Server.LiarsGame.NextTurn | liars_dice/server/server.py:155-162 | one `next_turn` call, then `next_turn:<player>` to all, and the play prompt to that player's registered name alone (the corrected audience, see ## Findings) |
| Server.LiarsGame.HandleNonBet | liars_dice/server/server.py:116-140 | the matching game call; with a loser: accusation, `player_lost_die:<loser>` and the next turn; when the game raises: only a new play prompt to the turn player alone (the corrected audience, see ## Findings), or to everyone when there is no turn player |
| Server.LiarsGame.ReceivedUsername | liars_dice/server/server.py:67-84 | a free name on an unnamed connection registers exactly that client, seats it with a fresh hand and announces it; a taken name changes nothing and re-requests a username; a named connection keeps its name |
| Server.LiarsGame.ReceivedStart | liars_dice/server/server.py:86-101 | the game starts and a round is rolled exactly when the requester is first in the player order and at least two players are listed; otherwise nothing changes |
| Server.LiarsGame.ConnectionLost | liars_dice/server/server.py:58-65 | a registered name leaves both the clients and the game, the rest hear `left:<name>` and a new round; an unregistered connection changes nothing |
| Server.LiarsGame.LineReceived | liars_dice/server/server.py:22-48 | routing by command; a registered connection keeps its name, and only a `username` line can change it; a `username` line registers, refuses or ignores the name exactly as ReceivedUsername does; a `start` line starts the game and rolls a round exactly as ReceivedStart does, leaving the clients and the table's hands and tally as they were; play commands from anyone but the turn player, and unknown commands, are dropped with no output and no change; liar/spot_on go to the game; a bet is echoed to all, then handed to the game and the turn advances |
| Client.ParseInts | liars_dice/client/player.py:51 | every field reads as an int, or the whole list is unreadable; the values are in field order |
| Client.Insert | liars_dice/client/test/test_player.py:11-12 | one step of the sort; InsertSorted proves it keeps a sequence ascending and adds exactly one value |
| Client.InsertSorted | liars_dice/client/test/test_player.py:11-12 | inserting into an ascending list keeps it ascending and adds exactly that value |
| Client.SortInts | liars_dice/client/test/test_player.py:11-12 | the hand's sort; SortIntsSorted proves it ascending and a permutation, SortedUnique that it is the only such result |
| Client.SortIntsSorted | liars_dice/client/test/test_player.py:11-12 | the sort is ascending and a permutation of its input |
| Client.SortedUnique | liars_dice/client/test/test_player.py:11-12 | two ascending arrangements of the same values are equal |
| Client.ParseHand | liars_dice/client/player.py:48-52 | the hand is ascending and holds exactly the values of the comma-separated fields; it is unreadable iff some field is not an int |
| Client.ParseHandExample | liars_dice/client/test/test_player.py:9-12 | "6,5,6,4,1,3" reads as [1, 3, 4, 5, 6, 6] |
| Client.ParseHandFormatted | liars_dice/client/player.py:48-52 | any comma-joined list of ints reads back as the same values in ascending order |
| Client.ParseStatusItem | liars_dice/client/player.py:57-58 | an item reads exactly when it is a name, one `=`, and an int; the pair is that name and that int |
| Client.ParseStatusItems | liars_dice/client/player.py:57-58 | one pair per item, in item order; unreadable only when some item is unreadable |
| Client.ParseStatus | liars_dice/client/player.py:54-59 | one pair per comma-separated item, each the reading of that item, in order; unreadable only when some item is; the empty payload is an empty table |
| Client.ParseStatusItemFormatted | liars_dice/client/player.py:57-58 | a `name=count` item from the server reads back as the pair |
| Client.ParseStatusFormatted | liars_dice/client/player.py:57-59 | the server's status payload reads back as the same pairs in the same order, when no name holds `,` or `=` |
| Client.StatusItemsRead | liars_dice/client/player.py:57-59 | items that each read back as one pair read back, together, as those pairs in order |
| Client.CommaInNameBreaksStatus | liars_dice/client/player.py:57-59 | the proviso is needed: a name "a,b" makes the status payload unreadable |
| Client.Player.constructor | liars_dice/client/player.py:18-19 | a new player has an empty hand and an empty status table |
| Client.Player.ReceivedHand | liars_dice/client/player.py:48-52 | a readable payload replaces the hand with the parsed sorted hand and nothing else; an unreadable one changes nothing |
| Client.Player.ReceivedPlayerStatus | liars_dice/client/player.py:54-59 | a readable payload replaces the status table and nothing else; an unreadable one changes nothing |

## Left out

- Die and Hand are values, not objects. `Die.roll` yields a new die, and `Hand.reroll` yields a new hand, rather than updating in place. The model therefore does not capture in-place updates of a die or a hand, or sharing of one Hand object between owners. Only `GameStatus` and the server state are updated in place.
- Game.Roll: the face is chosen freely in 1..6. Randomness and its distribution are not modelled.
- The die's field is `face`, as `test_die.py` reads it. `test_hand.py` reads it as `value`.
- `die_face` takes no argument, as `test_gameStatus.py` calls it. Its declared `hand` parameter is not modelled.
- Game.NewHand: a fresh hand holds six dice. The tests only demand more than one.
- Game.GameStatus.RemoveDie removes the last die of the hand; which die goes is not specified anywhere.
- Game.GameStatus.RemoveDie keeps the player seated when the hand becomes empty; game.py:44-48 documents only the die removal and the emptiness result.
- The Twisted transport (`LineReceiver`, `Factory`, `reactor`), logging, and the listening socket are not modelled.
- `connectionMade` is not modelled. That covers the username request on connect and dropping a connection once the game has started (server.py:50-56).
- The GameStatus members that server.py calls but game.py does not define are not modelled: `turn_player`, `player_order`, `get_player_status`, `handle_bet`, `handle_liar`, `handle_spot_on`, `next_round` and `next_turn`. Their results are inputs, and their calls are reported, but their rules are not modelled.
- The bidding, liar and spot-on resolution rules live in those undefined members and are not part of this model.
- Server.LiarsGame.LineReceived: a bet whose payload is not exactly two ints makes the source raise after the echo (server.py:46). The model stops after the echo: no game call and no next turn.
- Server.LiarsGame.ReceivedStart:
  - When the requester is not in the player order, `player_order.index` raises (server.py:88). The model treats this as a refused start.
  - A refused start raises in the source, because it reads `self.username` (server.py:98). The model makes no change and sends nothing.
  - The start rule does not check whether the game has already started: server.py:92 does not read `game_started`.
- Server.LiarsGame.ReceivedUsername:
  - A `username` line without a payload registers nothing. The source would register the name None and then raise at the log line (server.py:76).
  - The empty name is accepted, as in server.py:73.
- Server.LiarsGame.ConnectionLost:
  - A new round is rolled even when the game has not started, or when fewer than two players remain, as in the source.
  - The dropped connection keeps its `username` field, as in the source.
  - Only the shared state is proved consistent afterwards. That each other connection's name is still registered is not proved.
- Server.LiarsGame.RollNewRound, NextTurn, HandleNonBet: the play prompt uses PlayAudience, the correction in ## Findings; as written it reaches PlayAudienceAsWritten, every registered name inside the player's name.
- Server.LiarsGame.LineReceived, HandleNonBet, RollNewRound, NextTurn, ReceivedStart and ConnectionLost: the game calls they report (`next_round`, `next_turn`, `handle_bet`, `handle_liar`, `handle_spot_on`) are not applied to the table. In the model the GameStatus hands and tally are left as they were, so `unchanged(factory.game)` after a play command, and the clients/players agreement of `LiarGameFactory.Valid`, hold of the model only; the effects of these calls on the table are not captured.
- Server.LiarsGame.HandleNonBet and the other handlers assume that `turn_player()` names a player after `next_round` and `next_turn`. A None there (a string concatenation error in the source) is not modelled.
- Server.LiarsGame.SendMessage: the recipients form a set. The order in which `clients` is iterated, and so the order of the sends within one message, is not modelled.
- Strings.ParseInt accepts an optional sign and ASCII digits only; the surrounding whitespace that Python 2's `int()` also skips is not modelled.
- Client.ParseHand and Client.ParseStatus read the empty payload as an empty hand or table. Both method bodies in player.py are empty, so this reading, like the rest of the parse, follows their documentation and the test.
- The rest of player.py (`lineReceived`, the `send_*` methods and the `notification_*` hooks) has empty bodies and no documented format. It is not modelled.
- The console, Tk and bot clients, `SimpleBot`'s random strategy and the config-file reader are not modelled.

## Findings

| source | as written | input that shows it | evidently intended | confidence | as-written member | corrected member |
|---|---|---|---|---|---|---|
| liars_dice/server/server.py:153 | `send_message(PLAY, next_player)` passes the player's name as a bare string, so `username in client_usernames` is a substring test (also at server.py:140 and server.py:162) | players "al" and "alice" registered, "alice" to play: the play prompt also reaches "al" | the prompt goes to the named player alone (a one-name list) | not executed | Server.PlayAudienceAsWritten, Server.PlayPromptReachesAl | Server.PlayAudience |
