/**
 * The server's protocol dispatcher: `LiarsGame`, one per connection, and the
 * shared `LiarGameFactory` state (the `clients` map, the game status and the
 * `game_started` flag).
 *
 * Every handler returns the lines it sends, in order, as `Output`s: a `Send`
 * to the set of registered names that `send_message` reached, or a `Reply`
 * written straight back to the requesting connection. The GameStatus members
 * that the dispatcher relies on but that the game module does not define
 * (`turn_player`, `player_order`, `get_player_status`, `handle_bet`,
 * `handle_liar`, `handle_spot_on`, `next_round`, `next_turn`) are not given
 * any rules: what they return comes in as an `Oracle`, and each call to one
 * that changes the game is reported as a `GameCall`.
 */
module Server {
  import opened Wrappers
  import opened Strings
  import NC = NetworkCommand
  import Game

  /** A received line: the command before the first delimiter, and the field after it if any. */
  datatype Message = Message(command: string, extra: Option<string>)

  /**
   * The parse at the top of `lineReceived`: split at the delimiter, keep the
   * first piece as the command and the second, if there is one, as the extra
   * field; anything after a second delimiter is dropped.
   */
  function ParseLine(line: string): (m: Message)
    ensures NC.Delimiter !in m.command
    ensures m.extra.None? <==> NC.Delimiter !in line
    ensures m.extra.None? ==> m.command == line
    ensures m.extra.Some? ==>
      var n := |m.command| + 1 + |m.extra.value|;
      NC.Delimiter !in m.extra.value && n <= |line| &&
      line[..n] == m.command + [NC.Delimiter] + m.extra.value &&
      (n == |line| || line[n] == NC.Delimiter)
  {
    var parts := Split(line, NC.Delimiter);
    if |parts| == 1 then
      SplitNoSeparator(line, NC.Delimiter);
      Message(parts[0], None)
    else
      SecondPiece(line, NC.Delimiter);
      Message(parts[0], Some(parts[1]))
  }

  /** A command and a delimiter-free field, joined by the delimiter, parse back to both. */
  lemma ParseFormatted(command: string, extra: string)
    requires NC.Delimiter !in command && NC.Delimiter !in extra
    ensures ParseLine(command + [NC.Delimiter] + extra) == Message(command, Some(extra))
  {
    SplitAtSeparator(command, extra, NC.Delimiter);
    SplitNoSeparator(extra, NC.Delimiter);
  }

  /** A bare command, with no delimiter, parses to itself with no extra field. */
  lemma ParseBare(command: string)
    requires NC.Delimiter !in command
    ensures ParseLine(command) == Message(command, None)
  {
    SplitNoSeparator(command, NC.Delimiter);
  }

  /** One `name=count` item of the status line. */
  function StatusItem(entry: (string, int)): string {
    entry.0 + "=" + FormatInt(entry.1)
  }

  function StatusItems(data: seq<(string, int)>): seq<string> {
    seq(|data|, i requires 0 <= i < |data| => StatusItem(data[i]))
  }

  /** The payload of the status line: the items in `get_player_status` order, joined by commas. */
  function StatusPayload(data: seq<(string, int)>): string {
    Join(StatusItems(data), ',')
  }

  /** The line `send_player_status` broadcasts. */
  function StatusLine(data: seq<(string, int)>): string {
    NC.PlayerStatus + [NC.Delimiter] + StatusPayload(data)
  }

  /**
   * The status line reads back, through the line parse, as the status
   * command with the whole payload, as long as no name holds the delimiter.
   */
  lemma StatusLineParses(data: seq<(string, int)>)
    requires forall i :: 0 <= i < |data| ==> NC.Delimiter !in data[i].0
    ensures ParseLine(StatusLine(data)) == Message(NC.PlayerStatus, Some(StatusPayload(data)))
  {
    var items := StatusItems(data);
    forall i | 0 <= i < |items| ensures NC.Delimiter !in items[i] {
      FormatIntHasNo(data[i].1, NC.Delimiter);
    }
    JoinFree(items, ',', NC.Delimiter);
    ParseFormatted(NC.PlayerStatus, StatusPayload(data));
  }

  /** The `client_usernames` argument of `send_message`. */
  datatype Recipients =
    | Everyone             // None: every registered client
    | Among(names: seq<string>)  // a list of names: membership
    | Within(text: string)       // a bare string: Python's `in` is then a substring test

  predicate Wanted(r: Recipients, name: string) {
    match r
    case Everyone => true
    case Among(names) => name in names
    case Within(text) => IsSubstring(name, text)
  }

  /** The registered names that `send_message` writes to. */
  function Audience(names: set<string>, r: Recipients): (to: set<string>)
    ensures to <= names
    ensures r.Everyone? ==> to == names
  {
    set n | n in names && Wanted(r, n)
  }

  /** The prompt to play as the source sends it: the player's name passed as a bare string. */
  function PlayAudienceAsWritten(names: set<string>, player: string): (to: set<string>)
    ensures to <= names
    ensures player in names ==> player in to
  {
    IsSubstringAt(player, player, 0);
    Audience(names, Within(player))
  }

  /** The prompt to play sent to the named player alone: the name passed as a one-name list. */
  function PlayAudience(names: set<string>, player: string): (to: set<string>)
    ensures to == if player in names then {player} else {}
  {
    Audience(names, Among([player]))
  }

  /** With a bare string, the prompt reaches every registered name inside the player's name. */
  lemma PlayAudienceAsWrittenLeaks(names: set<string>, player: string, other: string, i: nat)
    requires other in names && player in names
    requires OccursAt(other, player, i)
    ensures {player, other} <= PlayAudienceAsWritten(names, player)
  {
    IsSubstringAt(other, player, i);
  }

  /** "al" and "alice" at one table: the prompt for "alice" also reaches "al". */
  lemma PlayPromptReachesAl()
    ensures PlayAudienceAsWritten({"al", "alice"}, "alice") == {"al", "alice"}
    ensures PlayAudience({"al", "alice"}, "alice") == {"alice"}
  {
    PlayAudienceAsWrittenLeaks({"al", "alice"}, "alice", "al", 0);
  }

  /** A sent line and who receives it. */
  datatype Output =
    | Send(to: set<string>, line: string)  // through `send_message`, to these registered names
    | Reply(line: string)                 // through `sendLine`, to the requesting connection only

  /** What the GameStatus members the game module leaves undefined report for one line. */
  datatype Oracle = Oracle(
    turnPlayer: Option<string>,          // `turn_player()` when the line arrives
    nextPlayer: string,                  // `turn_player()` after `next_round()` or `next_turn()`
    playerOrder: seq<string>,            // `player_order`
    playerStatus: seq<(string, int)>,    // `get_player_status()`
    verdict: Option<string>)             // the loser from `handle_liar`/`handle_spot_on`; None when they raise

  /** The game-changing calls the dispatcher makes on members the game module leaves undefined. */
  datatype GameCall = NextRound | NextTurn | HandleBet(face: int, number: int) | HandleLiar | HandleSpotOn

  /** `roll_new_round`'s lines: new round, status, whose turn, and the prompt to that player. */
  function RoundOutputs(names: set<string>, o: Oracle): seq<Output> {
    [Send(names, NC.NextRound),
     Send(names, StatusLine(o.playerStatus)),
     Send(names, NC.NextTurn + [NC.Delimiter] + o.nextPlayer),
     Send(PlayAudience(names, o.nextPlayer), NC.Play)]
  }

  /** `next_turn`'s lines: whose turn, and the prompt to that player. */
  function TurnOutputs(names: set<string>, o: Oracle): seq<Output> {
    [Send(names, NC.NextTurn + [NC.Delimiter] + o.nextPlayer),
     Send(PlayAudience(names, o.nextPlayer), NC.Play)]
  }

  /**
   * `handle_non_bet`'s lines: with a loser, the accusation, the lost die and
   * the next turn; when the game raises (no bet yet), a new prompt to the
   * turn player.
   */
  function NonBetOutputs(names: set<string>, command: string, o: Oracle): seq<Output> {
    match o.verdict
    case Some(loser) =>
      [Send(names, command), Send(names, NC.PlayerLostDie + [NC.Delimiter] + loser)] + TurnOutputs(names, o)
    case None =>
      match o.turnPlayer
      case Some(p) => [Send(PlayAudience(names, p), NC.Play)]
      case None => [Send(names, NC.Play)]
  }

  /** The `face,number` payload of a bet: exactly two comma-separated ints. */
  function ParseBet(extra: Option<string>): (r: Option<(int, int)>)
    ensures r.Some? ==> extra.Some? && |Split(extra.value, ',')| == 2
    ensures r.Some? ==> var parts := Split(extra.value, ',');
      ParseInt(parts[0]) == Some(r.value.0) && ParseInt(parts[1]) == Some(r.value.1)
    ensures extra.Some? ==> var parts := Split(extra.value, ',');
      |parts| == 2 && ParseInt(parts[0]).Some? && ParseInt(parts[1]).Some? ==> r.Some?
  {
    match extra
    case None => None
    case Some(text) =>
      var parts := Split(text, ',');
      if |parts| != 2 then None
      else
        match (ParseInt(parts[0]), ParseInt(parts[1]))
        case (Some(face), Some(number)) => Some((face, number))
        case _ => None
  }

  /** A bet payload written as `face,number` parses back to the pair. */
  lemma ParseBetFormatted(face: int, number: int)
    ensures ParseBet(Some(FormatInt(face) + "," + FormatInt(number))) == Some((face, number))
  {
    FormatIntHasNo(face, ',');
    FormatIntHasNo(number, ',');
    SplitAtSeparator(FormatInt(face), FormatInt(number), ',');
    SplitNoSeparator(FormatInt(number), ',');
  }

  /** The shared server state: registered clients by name, the game, and whether it has started. */
  class LiarGameFactory {
    var clients: map<string, LiarsGame>
    const game: Game.GameStatus
    var gameStarted: bool

    /** The game is consistent and seats exactly the registered names. */
    ghost predicate Valid()
      reads this, game
    {
      game.Valid() && clients.Keys == game.players.Keys
    }

    constructor ()
      ensures Valid() && clients == map[] && !gameStarted
      ensures fresh(game) && game.players == map[]
    {
      clients := map[];
      game := new Game.GameStatus();
      gameStarted := false;
    }
  }

  /** One client connection. */
  class LiarsGame {
    var username: Option<string>
    const factory: LiarGameFactory

    /** A new connection, not yet registered under any name. */
    constructor (factory: LiarGameFactory)
      ensures this.factory == factory && username == None
    {
      this.factory := factory;
      username := None;
    }

    /** The shared state is consistent and a registered connection's name is still a client. */
    ghost predicate Valid()
      reads this, factory, factory.game
    {
      factory.Valid() && (username.Some? ==> username.value in factory.clients)
    }

    /** `send_message`: one copy of `message` to every registered client that `r` selects. */
    method SendMessage(message: string, r: Recipients) returns (out: Output)
      ensures out == Send(Audience(factory.clients.Keys, r), message)
    {
      var todo := factory.clients.Keys;
      var to: set<string> := {};
      while todo != {}
        invariant todo <= factory.clients.Keys
        invariant to == Audience(factory.clients.Keys - todo, r)
        decreases todo
      {
        var name :| name in todo;
        if Wanted(r, name) {
          to := to + {name};
        }
        todo := todo - {name};
      }
      out := Send(to, message);
    }

    /** `send_player_status`: the status line, to everyone. */
    method SendPlayerStatus(o: Oracle) returns (out: Output)
      ensures out == Send(factory.clients.Keys, StatusLine(o.playerStatus))
    {
      out := SendMessage(StatusLine(o.playerStatus), Everyone);
    }

    /** `roll_new_round`: one call to `next_round`, then the round's lines. */
    method RollNewRound(o: Oracle) returns (out: seq<Output>, calls: seq<GameCall>)
      ensures out == RoundOutputs(factory.clients.Keys, o) && calls == [NextRound]
    {
      calls := [NextRound];
      var round := SendMessage(NC.NextRound, Everyone);
      var status := SendPlayerStatus(o);
      var turn := SendMessage(NC.NextTurn + [NC.Delimiter] + o.nextPlayer, Everyone);
      var play := SendMessage(NC.Play, Among([o.nextPlayer]));
      out := [round, status, turn, play];
    }

    /** `next_turn`: one call to `next_turn`, then whose turn it is and the prompt. */
    method NextTurn(o: Oracle) returns (out: seq<Output>, calls: seq<GameCall>)
      ensures out == TurnOutputs(factory.clients.Keys, o) && calls == [GameCall.NextTurn]
    {
      calls := [GameCall.NextTurn];
      var turn := SendMessage(NC.NextTurn + [NC.Delimiter] + o.nextPlayer, Everyone);
      var play := SendMessage(NC.Play, Among([o.nextPlayer]));
      out := [turn, play];
    }

    /** `handle_non_bet`: resolve a liar or spot-on call through the game. */
    method HandleNonBet(command: string, o: Oracle) returns (out: seq<Output>, calls: seq<GameCall>)
      ensures out == NonBetOutputs(factory.clients.Keys, command, o)
      ensures calls == [if command == NC.SpotOn then HandleSpotOn else HandleLiar] +
                       (if o.verdict.Some? then [GameCall.NextTurn] else [])
    {
      calls := [if command == NC.SpotOn then HandleSpotOn else HandleLiar];
      if o.verdict.Some? {
        var accusation := SendMessage(command, Everyone);
        var lost := SendMessage(NC.PlayerLostDie + [NC.Delimiter] + o.verdict.value, Everyone);
        var turn, more := NextTurn(o);
        out := [accusation, lost] + turn;
        calls := calls + more;
      } else if o.turnPlayer.Some? {
        var play := SendMessage(NC.Play, Among([o.turnPlayer.value]));
        out := [play];
      } else {
        var play := SendMessage(NC.Play, Everyone);
        out := [play];
      }
    }

    /**
     * `_received_username`: a connection with no name yet takes a free name;
     * a taken name is refused with a fresh `username` request.
     */
    method ReceivedUsername(extra: Option<string>, o: Oracle) returns (out: seq<Output>)
      requires Valid()
      modifies this, factory, factory.game
      ensures Valid() && factory.gameStarted == old(factory.gameStarted)
      ensures extra.Some? && extra.value !in old(factory.clients) && old(username).None? ==>
        var name := extra.value;
        && username == Some(name)
        && factory.clients == old(factory.clients)[name := this]
        && factory.game.players == old(factory.game.players)[name := factory.game.players[name]]
        && |factory.game.players[name].hand| == Game.StartingDice
        && factory.game.diceCount == old(factory.game.diceCount) + multiset(factory.game.players[name].DieFace())
        && out == [Send(factory.clients.Keys, NC.PlayerJoined + [NC.Delimiter] + name),
                   Send(factory.clients.Keys, StatusLine(o.playerStatus))]
      ensures !(extra.Some? && extra.value !in old(factory.clients) && old(username).None?) ==>
        && unchanged(this, factory, factory.game)
        && out == if extra.Some? && extra.value in old(factory.clients) then [Reply(NC.Username)] else []
    {
      if extra.Some? && extra.value !in factory.clients && username.None? {
        var name := extra.value;
        factory.clients := factory.clients[name := this];
        factory.game.AddPlayer(name);
        var joined := SendMessage(NC.PlayerJoined + [NC.Delimiter] + name, Everyone);
        username := Some(name);
        var status := SendPlayerStatus(o);
        out := [joined, status];
      } else if extra.Some? && extra.value in factory.clients {
        out := [Reply(NC.Username)];
      } else {
        out := [];
      }
    }

    /**
     * `_received_start`: only the first player in the order may start, and
     * only with at least two players; then a round begins.
     */
    method ReceivedStart(o: Oracle) returns (out: seq<Output>, calls: seq<GameCall>)
      requires Valid()
      modifies factory
      ensures Valid() && factory.clients == old(factory.clients)
      ensures var allowed := username.Some? && |o.playerOrder| >= 2 && o.playerOrder[0] == username.value;
        && factory.gameStarted == (old(factory.gameStarted) || allowed)
        && out == (if allowed then RoundOutputs(factory.clients.Keys, o) else [])
        && calls == (if allowed then [NextRound] else [])
    {
      if username.Some? && |o.playerOrder| >= 2 && o.playerOrder[0] == username.value {
        factory.gameStarted := true;
        out, calls := RollNewRound(o);
      } else {
        out, calls := [], [];
      }
    }

    /**
     * `connectionLost`: a registered connection's name leaves the clients and
     * the game, everyone left is told, and a new round is rolled.
     */
    method ConnectionLost(o: Oracle) returns (out: seq<Output>, calls: seq<GameCall>)
      requires Valid()
      modifies factory, factory.game
      ensures factory.Valid() && factory.gameStarted == old(factory.gameStarted)
      ensures old(username).Some? ==>
        var name := username.value;
        && factory.clients == old(factory.clients) - {name}
        && factory.game.players == old(factory.game.players) - {name}
        && out == [Send(factory.clients.Keys, NC.PlayerLeft + [NC.Delimiter] + name)] +
                  RoundOutputs(factory.clients.Keys, o)
        && calls == [NextRound]
      ensures old(username).None? ==> unchanged(factory, factory.game) && out == [] && calls == []
    {
      if username.Some? {
        var name := username.value;
        factory.game.RemovePlayer(name);
        factory.clients := factory.clients - {name};
        var left := SendMessage(NC.PlayerLeft + [NC.Delimiter] + name, Everyone);
        var round;
        round, calls := RollNewRound(o);
        out := [left] + round;
      } else {
        out, calls := [], [];
      }
    }

    /**
     * `lineReceived`: parse the line, then route it. `username` and `start`
     * are open to everyone; `liar`, `spot_on` and `bet` only to the turn
     * player, and are silently dropped from anyone else.
     */
    method LineReceived(line: string, o: Oracle) returns (out: seq<Output>, calls: seq<GameCall>)
      requires Valid()
      modifies this, factory, factory.game
      ensures Valid()
      ensures var m := ParseLine(line);
        || (m.command !in {NC.Username, NC.Start} && o.turnPlayer != old(username))
        || m.command !in {NC.Username, NC.Start, NC.Liar, NC.SpotOn, NC.Bet}
        ==> unchanged(this, factory, factory.game) && out == [] && calls == []
      ensures var m := ParseLine(line);
        m.command in {NC.Liar, NC.SpotOn} && o.turnPlayer == old(username) ==>
          && unchanged(this, factory, factory.game)
          && out == NonBetOutputs(factory.clients.Keys, m.command, o)
          && calls == [if m.command == NC.SpotOn then HandleSpotOn else HandleLiar] +
                      (if o.verdict.Some? then [GameCall.NextTurn] else [])
      ensures var m := ParseLine(line);
        m.command == NC.Bet && o.turnPlayer == old(username) ==>
          && unchanged(this, factory, factory.game)
          && |out| >= 1 && out[0] == Send(factory.clients.Keys, line)
          && match ParseBet(m.extra)
             case Some((face, number)) =>
               out == [out[0]] + TurnOutputs(factory.clients.Keys, o) &&
               calls == [HandleBet(face, number), GameCall.NextTurn]
             case None => out == [out[0]] && calls == []
      ensures old(username).Some? ==> username == old(username)
      ensures ParseLine(line).command != NC.Username ==> username == old(username)
      ensures var m := ParseLine(line);
        m.command == NC.Start ==>
          var allowed := username.Some? && |o.playerOrder| >= 2 && o.playerOrder[0] == username.value;
          && unchanged(factory.game)
          && factory.clients == old(factory.clients)
          && factory.gameStarted == (old(factory.gameStarted) || allowed)
          && out == (if allowed then RoundOutputs(factory.clients.Keys, o) else [])
          && calls == (if allowed then [NextRound] else [])
      ensures var m := ParseLine(line);
        m.command == NC.Username ==> factory.gameStarted == old(factory.gameStarted) && calls == []
      ensures var m := ParseLine(line);
        m.command == NC.Username && m.extra.Some? && m.extra.value !in old(factory.clients) && old(username).None? ==>
          var name := m.extra.value;
          && username == Some(name)
          && factory.clients == old(factory.clients)[name := this]
          && factory.game.players == old(factory.game.players)[name := factory.game.players[name]]
          && |factory.game.players[name].hand| == Game.StartingDice
          && factory.game.diceCount == old(factory.game.diceCount) + multiset(factory.game.players[name].DieFace())
          && out == [Send(factory.clients.Keys, NC.PlayerJoined + [NC.Delimiter] + name),
                     Send(factory.clients.Keys, StatusLine(o.playerStatus))]
      ensures var m := ParseLine(line);
        m.command == NC.Username && !(m.extra.Some? && m.extra.value !in old(factory.clients) && old(username).None?) ==>
          && unchanged(this, factory, factory.game)
          && out == if m.extra.Some? && m.extra.value in old(factory.clients) then [Reply(NC.Username)] else []
    {
      var m := ParseLine(line);
      out, calls := [], [];
      if m.command == NC.Username {
        out := ReceivedUsername(m.extra, o);
      } else if m.command == NC.Start {
        out, calls := ReceivedStart(o);
      } else if o.turnPlayer == username {
        if m.command == NC.SpotOn || m.command == NC.Liar {
          out, calls := HandleNonBet(m.command, o);
        } else if m.command == NC.Bet {
          var echo := SendMessage(line, Everyone);
          out := [echo];
          var bet := ParseBet(m.extra);
          if bet.Some? {
            var turn, more := NextTurn(o);
            out := out + turn;
            calls := [HandleBet(bet.value.0, bet.value.1)] + more;
          }
        }
      }
    }
  }
}
