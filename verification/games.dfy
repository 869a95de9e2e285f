/** Values the front end receives from the store and the lobby channel,
    shared by the notification handler, the lobby list and the task header. */
module Games {

  /** A game state. The concrete codes live in a configuration file that is
      not part of this model, so every state the components compare against
      is a distinct constructor and all others are `OtherStatus`. */
  datatype Status =
    | Playing
    | WaitingOpponent
    | GameOver
    | Timeout
    | RematchInApproval
    | RematchRejected
    | OtherStatus(name: string)

  /** The rematch negotiation after a game; the handler compares it against
      the literals 'none' and 'rejected'. */
  datatype RematchState = NoneRequested | InApproval | Rejected | Accepted

  /** A player's `game_result` field. */
  datatype GameResult = Won | Lost | GaveUp | Undecided

  /** A user identity: a registered user, or the lobby's 'anonymous' id. */
  datatype UserId = Anonymous | Registered(n: int)

  datatype Player = Player(id: UserId, name: string, gameResult: GameResult)
}
