/**
 * The constants of liars_dice/network_command.py: the delimiter between a
 * command and its payload, and the command words of the line protocol.
 */
module NetworkCommand {

  /** `DELIMINATOR`: separates the command from its payload on a line. */
  const Delimiter: char := ':'

  const Username: string := "username"
  const PlayerLeft: string := "left"
  const PlayerJoined: string := "joined"

  const Start: string := "start"
  const NextRound: string := "next_round"
  const NextTurn: string := "next_turn"
  const Play: string := "play"
  const Winner: string := "winner"

  const PlayerLostDie: string := "player_lost_die"
  const PlayerHand: string := "hand"
  const PlayerStatus: string := "player_status"

  const Bet: string := "bet"
  const Liar: string := "liar"
  const SpotOn: string := "spot_on"
}
