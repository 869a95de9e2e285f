/** The lobby's game list: the result icon beside each player, the player
    cells of a row, the action buttons of an active game, and the two lookup
    tables the list renders from (difficulty badges and time limits). */
module GameList {
  import opened Wrappers
  import opened Games
  import Lookup

  // ---------------------------------------------------------------------
  // Tables

  /** Bootstrap badge class of each difficulty level. */
  const LevelToClass: map<string, string> :=
    map["elementary" := "info", "easy" := "success", "medium" := "warning", "hard" := "danger"]

  /** The i18n key of the label of each selectable time limit, in seconds. */
  const TimeoutOptions: map<int, string> :=
    map[0 := "Timeout - no timeout",
        60 := "Timeout 60 seconds",
        120 := "Timeout 120 seconds",
        300 := "Timeout 300 seconds",
        600 := "Timeout 600 seconds",
        1200 := "Timeout 1200 seconds",
        3600 := "Timeout 3600 seconds"]

  /** A table lookup; a key the table lacks reads as `undefined`. */
  function BadgeClass(level: string): (c: Option<string>)
    ensures c.Some? <==> level in {"elementary", "easy", "medium", "hard"}
    ensures level == "elementary" ==> c == Some("info")
    ensures level == "easy" ==> c == Some("success")
    ensures level == "medium" ==> c == Some("warning")
    ensures level == "hard" ==> c == Some("danger")
  {
    if level in LevelToClass then Some(LevelToClass[level]) else None
  }

  /** Each level gets its own badge class. */
  lemma BadgeClassesDistinct(a: string, b: string)
    requires BadgeClass(a).Some? && BadgeClass(b).Some? && a != b
    ensures BadgeClass(a) != BadgeClass(b)
  {
  }

  /** The label shown for a time limit; only the seven offered limits have one. */
  function TimeoutLabel(seconds: int): (l: Option<string>)
    ensures l.Some? <==> seconds in {0, 60, 120, 300, 600, 1200, 3600}
    ensures seconds == 0 ==> l == Some("Timeout - no timeout")
    ensures seconds == 60 ==> l == Some("Timeout 60 seconds")
    ensures seconds == 120 ==> l == Some("Timeout 120 seconds")
    ensures seconds == 300 ==> l == Some("Timeout 300 seconds")
    ensures seconds == 600 ==> l == Some("Timeout 600 seconds")
    ensures seconds == 1200 ==> l == Some("Timeout 1200 seconds")
    ensures seconds == 3600 ==> l == Some("Timeout 3600 seconds")
  {
    if seconds in TimeoutOptions then Some(TimeoutOptions[seconds]) else None
  }

  /** Different time limits have different labels; the time-limit menu keys
      its entries by label, so the keys are unique. */
  lemma TimeoutLabelsDistinct(a: int, b: int)
    requires TimeoutLabel(a).Some? && TimeoutLabel(b).Some? && a != b
    ensures TimeoutLabel(a) != TimeoutLabel(b)
  {
  }

  // ---------------------------------------------------------------------
  // Result icons and player cells

  datatype Icon = FlagIcon | TrophyIcon | EmptyIcon

  /** The icon beside `player` in a game against `opponent`. */
  function ResultIcon(player: Player, opponent: Player): (i: Icon)
    ensures i == FlagIcon <==> player.gameResult == GaveUp
    ensures player.gameResult == Won ==> (i == TrophyIcon <==> opponent.gameResult != GaveUp)
    ensures player.gameResult != GaveUp && player.gameResult != Won ==> i == EmptyIcon
  {
    if player.gameResult == GaveUp then FlagIcon
    else if player.gameResult == Won && opponent.gameResult != GaveUp then TrophyIcon
    else EmptyIcon
  }

  /** In a decided game (one player won, the other lost or gave up) exactly
      one of the two cells shows an icon: the trophy when the loser lost,
      the loser's flag when the loser gave up. */
  lemma DecidedGameMarksOneSide(winner: Player, loser: Player)
    requires winner.gameResult == Won
    requires loser.gameResult == Lost || loser.gameResult == GaveUp
    ensures (ResultIcon(winner, loser) == EmptyIcon) != (ResultIcon(loser, winner) == EmptyIcon)
    ensures loser.gameResult == Lost ==> ResultIcon(winner, loser) == TrophyIcon
    ensures loser.gameResult == GaveUp ==>
              ResultIcon(winner, loser) == EmptyIcon && ResultIcon(loser, winner) == FlagIcon
  {
  }

  /** Two trophies appear only when both players are marked as winners. */
  lemma TwoTrophiesNeedTwoWinners(a: Player, b: Player)
    ensures ResultIcon(a, b) == TrophyIcon && ResultIcon(b, a) == TrophyIcon <==>
              a.gameResult == Won && b.gameResult == Won
  {
  }

  /** One table cell of a row's player columns. */
  datatype Cell = Cell(icon: Icon, user: Player, colSpan: nat)

  /** The player cells of a row. A game with one user gets one cell spanning
      both player columns; otherwise the first two users each get a cell
      whose icon is computed against the other. The source reads the first
      user unconditionally, so a game has at least one. */
  function RenderPlayers(users: seq<Player>): (r: seq<Cell>)
    requires |users| >= 1
    ensures |users| == 1 ==> r == [Cell(EmptyIcon, users[0], 2)]
    ensures |users| >= 2 ==> |r| == 2
    ensures |users| >= 2 ==> r[0].colSpan == 1 && r[1].colSpan == 1
    ensures |users| >= 2 ==> r[0].user == users[0] && r[1].user == users[1]
    ensures |users| >= 2 ==> r[0].icon == ResultIcon(users[0], users[1])
                             && r[1].icon == ResultIcon(users[1], users[0])
  {
    if |users| == 1 then [Cell(EmptyIcon, users[0], 2)]
    else [Cell(ResultIcon(users[0], users[1]), users[0], 1),
          Cell(ResultIcon(users[1], users[0]), users[1], 1)]
  }

  function TotalSpan(cells: seq<Cell>): nat
    decreases |cells|
  {
    if |cells| == 0 then 0 else cells[0].colSpan + TotalSpan(cells[1..])
  }

  /** Every row fills exactly the two columns under the "Players" header. */
  lemma PlayersFillTwoColumns(users: seq<Player>)
    requires |users| >= 1
    ensures TotalSpan(RenderPlayers(users)) == 2
  {
    var r := RenderPlayers(users);
    if |users| >= 2 {
      assert TotalSpan(r[1..]) == r[1].colSpan + TotalSpan(r[1..][1..]);
      assert r[1..][1..] == [];
    } else {
      assert r[1..] == [];
    }
  }

  /** Listing two players in the other order lists the same cells in the
      other order. */
  lemma RenderPlayersSymmetric(a: Player, b: Player)
    ensures RenderPlayers([b, a]) == [RenderPlayers([a, b])[1], RenderPlayers([a, b])[0]]
  {
  }

  // ---------------------------------------------------------------------
  // Action buttons

  /** An active game as the lobby channel reports it. */
  datatype LobbyGame = LobbyGame(gameId: string, state: Status, users: seq<Player>)

  datatype Label = ShowLabel | CancelLabel | JoinLabel
  datatype HttpMethod = Get | Post | Delete

  /** A button that issues `verb` on `target` when clicked. */
  datatype Button = Button(caption: Label, verb: HttpMethod, target: string)

  function GameUrl(game: LobbyGame): string {
    "/games/" + game.gameId
  }

  /** Whether the user with id `user` is one of the game's users. */
  function IsPlayer(user: UserId, game: LobbyGame): (b: bool)
    ensures b <==> exists i :: 0 <= i < |game.users| && game.users[i].id == user
  {
    Lookup.FindFirst(game.users, (u: Player) => u.id == user).Some?
  }

  /** The action buttons of an active game for the current user. */
  function GameActionButtons(game: LobbyGame, currentUser: UserId): (r: seq<Button>)
    ensures game.state == Playing ==> r == [Button(ShowLabel, Get, GameUrl(game))]
    ensures game.state == WaitingOpponent && IsPlayer(currentUser, game) ==>
              r == [Button(ShowLabel, Get, GameUrl(game)), Button(CancelLabel, Delete, GameUrl(game))]
    ensures game.state == WaitingOpponent && !IsPlayer(currentUser, game) && currentUser == Anonymous ==>
              r == []
    ensures game.state == WaitingOpponent && !IsPlayer(currentUser, game) && currentUser != Anonymous ==>
              r == [Button(JoinLabel, Post, GameUrl(game) + "/join")]
    ensures game.state != Playing && game.state != WaitingOpponent ==> r == []
  {
    var gameUrl := GameUrl(game);
    var show := Button(ShowLabel, Get, gameUrl);
    if game.state == Playing then [show]
    else if game.state == WaitingOpponent then
      if IsPlayer(currentUser, game) then [show, Button(CancelLabel, Delete, gameUrl)]
      else if currentUser == Anonymous then []
      else [Button(JoinLabel, Post, gameUrl + "/join")]
    else []
  }

  /** Every button targets the game's own page, the join button its join
      path below it. */
  lemma ButtonsTargetTheGame(game: LobbyGame, currentUser: UserId, i: nat)
    requires i < |GameActionButtons(game, currentUser)|
    ensures var b := GameActionButtons(game, currentUser)[i];
            GameUrl(game) <= b.target
            && (b.caption == JoinLabel <==> b.target == GameUrl(game) + "/join")
  {
  }

  /** Only a player of a game waiting for an opponent can cancel it, and only
      a registered user who is not yet a player can join it. */
  lemma WhoMayCancelOrJoin(game: LobbyGame, currentUser: UserId)
    ensures (exists i :: 0 <= i < |GameActionButtons(game, currentUser)|
                         && GameActionButtons(game, currentUser)[i].verb == Delete)
            <==> game.state == WaitingOpponent && IsPlayer(currentUser, game)
    ensures (exists i :: 0 <= i < |GameActionButtons(game, currentUser)|
                         && GameActionButtons(game, currentUser)[i].verb == Post)
            <==> game.state == WaitingOpponent && !IsPlayer(currentUser, game)
                 && currentUser != Anonymous
  {
    var r := GameActionButtons(game, currentUser);
    if game.state == WaitingOpponent && IsPlayer(currentUser, game) {
      assert r[1].verb == Delete;
    }
    if game.state == WaitingOpponent && !IsPlayer(currentUser, game) && currentUser != Anonymous {
      assert r[0].verb == Post;
    }
  }

  /** Membership takes precedence over anonymity: a game's own user is
      offered Show and Cancel even when its id is the anonymous one. */
  lemma PlayerCheckPrecedesAnonymous(game: LobbyGame)
    requires game.state == WaitingOpponent && IsPlayer(Anonymous, game)
    ensures |GameActionButtons(game, Anonymous)| == 2
  {
  }
}
