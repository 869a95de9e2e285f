/** The game screen's notification handler: on mount and on every update it
    compares the previous and current game-status snapshots and decides which
    one-shot toasts to raise. A toast is modelled as an intent value; the
    "actions after game" prompt's open and close callbacks are modelled as
    transitions of the UI flag it keeps in the store. */
module Notifications {
  import opened Wrappers
  import opened Games
  import Lookup

  /** The derived game status the handler reads from the store. */
  datatype GameStatus = GameStatus(
    status: Status,
    solutionStatus: Option<bool>,
    checking: bool,
    rematchState: RematchState)

  /** The handler's props. `players` is the store's player table in its
      iteration order; each entry is keyed by its player's id. */
  datatype Props = Props(
    currentUserId: UserId,
    players: seq<Player>,
    isShowActionsAfterGame: bool,
    gameStatus: GameStatus)

  datatype ResultMessage =
    | YouWon                        // congratulates the current user on the win
    | OpponentWon                   // tells a losing player that the opponent won
    | PlayerWon(winnerName: string) // tells a spectator which player won

  datatype Toast =
    | CheckingStatus(passed: bool)
    | GameResultToast(message: ResultMessage)
    | ActionsAfterGame

  datatype ToastKind = CheckingKind | ResultKind | PromptKind

  function KindOf(t: Toast): ToastKind {
    match t
    case CheckingStatus(_) => CheckingKind
    case GameResultToast(_) => ResultKind
    case ActionsAfterGame => PromptKind
  }

  /** Number of toasts of kind `k` in `ts`. */
  function CountOf(ts: seq<Toast>, k: ToastKind): (n: nat)
    ensures n <= |ts|
    ensures n == 0 <==> forall i :: 0 <= i < |ts| ==> KindOf(ts[i]) != k
  {
    if |ts| == 0 then 0
    else
      assert forall i :: 1 <= i < |ts| ==> ts[i] == ts[1..][i - 1];
      (if KindOf(ts[0]) == k then 1 else 0) + CountOf(ts[1..], k)
  }

  lemma {:induction false} CountOfConcat(a: seq<Toast>, b: seq<Toast>, k: ToastKind)
    ensures CountOf(a + b, k) == CountOf(a, k) + CountOf(b, k)
    decreases |a|
  {
    if |a| == 0 {
      assert a + b == b;
    } else {
      assert (a + b)[1..] == a[1..] + b;
      CountOfConcat(a[1..], b, k);
    }
  }

  /** JavaScript truthiness of `solutionStatus`: only `true` is truthy. */
  predicate Truthy(b: Option<bool>) {
    b == Some(true)
  }

  // ---------------------------------------------------------------------
  // mapStateToProps

  /** Whether the current user is a key of the player table. */
  function IsCurrentUserPlayer(p: Props): (b: bool)
    ensures b <==> exists i :: 0 <= i < |p.players| && p.players[i].id == p.currentUserId
  {
    var uid := p.currentUserId;
    Lookup.FindFirst(p.players, (pl: Player) => pl.id == uid).Some?
  }

  // ---------------------------------------------------------------------
  // Winner lookup

  /** The first player whose game result is `won`. */
  function Winner(players: seq<Player>): (w: Option<Player>)
    ensures w.Some? <==> exists i :: 0 <= i < |players| && players[i].gameResult == Won
    ensures w.Some? ==> w.value.gameResult == Won
    ensures w.Some? ==> exists i :: 0 <= i < |players| && players[i] == w.value
                                    && forall j :: 0 <= j < i ==> players[j].gameResult != Won
  {
    match Lookup.FindFirst(players, (pl: Player) => pl.gameResult == Won)
    case None => None
    case Some(i) => Some(players[i])
  }

  predicate HasWinner(players: seq<Player>) {
    Winner(players).Some?
  }

  // ---------------------------------------------------------------------
  // The three toasts

  /** The pass/fail toast raised when a check finishes. */
  function ShowCheckingStatusMessage(solutionStatus: Option<bool>): (t: Toast)
    ensures t.CheckingStatus?
    ensures t.passed <==> Truthy(solutionStatus)
  {
    if Truthy(solutionStatus) then CheckingStatus(true) else CheckingStatus(false)
  }

  /** The "actions after game" prompt: nothing for a spectator, nothing while
      the store says a prompt is already shown, else exactly one prompt. */
  function ShowActionsAfterGame(p: Props): (r: seq<Toast>)
    ensures !IsCurrentUserPlayer(p) ==> r == []
    ensures p.isShowActionsAfterGame ==> r == []
    ensures IsCurrentUserPlayer(p) && !p.isShowActionsAfterGame ==> r == [ActionsAfterGame]
  {
    if !IsCurrentUserPlayer(p) then []
    else if p.isShowActionsAfterGame then []
    else [ActionsAfterGame]
  }

  /** The game-result toast: a personal win, the opponent's win for a losing
      player, or the winner's name for a spectator. The source dereferences
      the winner unconditionally, so a winner must exist. */
  function ShowGameResultMessage(p: Props): (t: Toast)
    requires HasWinner(p.players)
    ensures t.GameResultToast?
    ensures t.message == YouWon <==>
              exists i :: 0 <= i < |p.players| && p.players[i].gameResult == Won
                          && p.players[i].id == p.currentUserId
                          && forall j :: 0 <= j < i ==> p.players[j].gameResult != Won
    ensures t.message == OpponentWon ==> IsCurrentUserPlayer(p)
    ensures t.message.PlayerWon? ==> !IsCurrentUserPlayer(p)
    ensures t.message.PlayerWon? ==>
              exists i :: 0 <= i < |p.players| && p.players[i].gameResult == Won
                          && p.players[i].name == t.message.winnerName
                          && forall j :: 0 <= j < i ==> p.players[j].gameResult != Won
  {
    var winner := Winner(p.players).value;
    if p.currentUserId == winner.id then GameResultToast(YouWon)
    else if IsCurrentUserPlayer(p) then GameResultToast(OpponentWon)
    else GameResultToast(PlayerWon(winner.name))
  }

  // ---------------------------------------------------------------------
  // Lifecycle hooks

  /** Statuses in which a freshly mounted handler offers the prompt. */
  predicate IsAfterGame(s: Status) {
    s == GameOver || s == RematchInApproval || s == RematchRejected
  }

  /** componentDidMount. */
  function DidMount(p: Props): (r: seq<Toast>)
    ensures r != [] <==> IsAfterGame(p.gameStatus.status) && IsCurrentUserPlayer(p)
                         && !p.isShowActionsAfterGame
    ensures forall i :: 0 <= i < |r| ==> r[i] == ActionsAfterGame
    ensures |r| <= 1
  {
    if IsAfterGame(p.gameStatus.status) then
      ShowActionsAfterGame(p)
    else
      []
  }

  /** The checking rule's trigger: a player's check went from running to done. */
  predicate FinishesChecking(prev: GameStatus, p: Props) {
    IsCurrentUserPlayer(p) && prev.checking && !p.gameStatus.checking
  }

  /** The game-over rule's trigger: the status changes into `gameOver`. */
  predicate EntersGameOver(prev: GameStatus, cur: GameStatus) {
    cur.status == GameOver && prev.status != GameOver
  }

  /** The rematch rule's trigger: the rematch state changes into a value other
      than 'none' and 'rejected'. */
  predicate RematchMoves(prev: GameStatus, cur: GameStatus) {
    prev.rematchState != cur.rematchState
    && cur.rematchState != NoneRequested && cur.rematchState != Rejected
  }

  /** componentDidUpdate: the checking rule, then the game-over rule, then the
      rematch rule, each appending what it raises. `prev` is the previous
      props' game status, the only previous prop the hook reads. */
  function DidUpdate(prev: GameStatus, p: Props): (r: seq<Toast>)
    requires EntersGameOver(prev, p.gameStatus) ==> HasWinner(p.players)
    ensures |r| <= 4
    ensures forall i :: 0 <= i < |r| && r[i].CheckingStatus? ==>
              r[i].passed == Truthy(p.gameStatus.solutionStatus)
    ensures r != [] ==> FinishesChecking(prev, p) || EntersGameOver(prev, p.gameStatus)
                        || (RematchMoves(prev, p.gameStatus) && IsCurrentUserPlayer(p))
  {
    var cur := p.gameStatus;
    var checked :=
      if FinishesChecking(prev, p) then [ShowCheckingStatusMessage(cur.solutionStatus)] else [];
    var over :=
      if EntersGameOver(prev, cur) then [ShowGameResultMessage(p)] + ShowActionsAfterGame(p) else [];
    var rematch :=
      if RematchMoves(prev, cur) then ShowActionsAfterGame(p) else [];
    checked + over + rematch
  }

  /** The checking rule raises exactly one toast when a player's check
      finishes and none otherwise; it reports success iff the solution
      status is truthy. */
  lemma CheckingToastRule(prev: GameStatus, p: Props)
    requires EntersGameOver(prev, p.gameStatus) ==> HasWinner(p.players)
    ensures CountOf(DidUpdate(prev, p), CheckingKind) == (if FinishesChecking(prev, p) then 1 else 0)
    ensures FinishesChecking(prev, p) ==>
              DidUpdate(prev, p)[0] == CheckingStatus(Truthy(p.gameStatus.solutionStatus))
  {
  }

  /** A result toast is raised exactly when the status changes into
      `gameOver`, right after the checking toast if there is one and so
      before the rematch rule's prompt. The second clause, that an update
      starting in `gameOver` raises none, follows from the first and is
      restated for readability. */
  lemma GameResultRule(prev: GameStatus, p: Props)
    requires EntersGameOver(prev, p.gameStatus) ==> HasWinner(p.players)
    ensures CountOf(DidUpdate(prev, p), ResultKind) == (if EntersGameOver(prev, p.gameStatus) then 1 else 0)
    ensures prev.status == GameOver ==> CountOf(DidUpdate(prev, p), ResultKind) == 0
    ensures EntersGameOver(prev, p.gameStatus) ==>
              DidUpdate(prev, p)[if FinishesChecking(prev, p) then 1 else 0] == ShowGameResultMessage(p)
  {
    if EntersGameOver(prev, p.gameStatus) {
      var checked := if FinishesChecking(prev, p) then [ShowCheckingStatusMessage(p.gameStatus.solutionStatus)] else [];
      assert DidUpdate(prev, p)[|checked|] == ShowGameResultMessage(p);
    }
  }

  /** When the status changes into `gameOver`, the result toast is
      immediately followed by the prompt for a player who has none shown. */
  lemma PromptFollowsResult(prev: GameStatus, p: Props)
    requires EntersGameOver(prev, p.gameStatus) && HasWinner(p.players)
    requires IsCurrentUserPlayer(p) && !p.isShowActionsAfterGame
    ensures exists i :: 0 <= i < |DidUpdate(prev, p)| - 1
                        && DidUpdate(prev, p)[i] == ShowGameResultMessage(p)
                        && DidUpdate(prev, p)[i + 1] == ActionsAfterGame
  {
    var r := DidUpdate(prev, p);
    var cur := p.gameStatus;
    var checked := if FinishesChecking(prev, p) then [ShowCheckingStatusMessage(cur.solutionStatus)] else [];
    var rematch := if RematchMoves(prev, cur) then ShowActionsAfterGame(p) else [];
    assert r == checked + [ShowGameResultMessage(p), ActionsAfterGame] + rematch;
    var i := |checked|;
    assert r[i] == ShowGameResultMessage(p) && r[i + 1] == ActionsAfterGame;
  }

  /** Mount and update agree: an update that enters `gameOver`, with neither
      the checking nor the rematch rule firing, raises the result toast and
      then exactly what a handler mounted in that state would raise. */
  lemma MountAgreesWithUpdate(prev: GameStatus, p: Props)
    requires EntersGameOver(prev, p.gameStatus) && HasWinner(p.players)
    requires !FinishesChecking(prev, p) && !RematchMoves(prev, p.gameStatus)
    ensures DidUpdate(prev, p) == [ShowGameResultMessage(p)] + DidMount(p)
  {
  }

  /** The prompt count of one update: one for each of the game-over and
      rematch rules that fires, for a player with no prompt shown, else none.
      Both rules read the same flag, so one update can raise two prompts. */
  lemma PromptRule(prev: GameStatus, p: Props)
    requires EntersGameOver(prev, p.gameStatus) ==> HasWinner(p.players)
    ensures CountOf(DidUpdate(prev, p), PromptKind) ==
              if IsCurrentUserPlayer(p) && !p.isShowActionsAfterGame
              then (if EntersGameOver(prev, p.gameStatus) then 1 else 0)
                 + (if RematchMoves(prev, p.gameStatus) then 1 else 0)
              else 0
  {
    var r := DidUpdate(prev, p);
    var cur := p.gameStatus;
    var checked := if FinishesChecking(prev, p) then [ShowCheckingStatusMessage(cur.solutionStatus)] else [];
    var over := if EntersGameOver(prev, cur) then [ShowGameResultMessage(p)] + ShowActionsAfterGame(p) else [];
    var rematch := if RematchMoves(prev, cur) then ShowActionsAfterGame(p) else [];
    assert r == checked + over + rematch;
    CountOfConcat(checked + over, rematch, PromptKind);
    CountOfConcat(checked, over, PromptKind);
    if EntersGameOver(prev, cur) {
      CountOfConcat([ShowGameResultMessage(p)], ShowActionsAfterGame(p), PromptKind);
    }
  }

  /** An update that leaves the game status unchanged raises nothing; in
      particular an unchanged rematch state never triggers the rematch rule. */
  lemma QuietUpdate(prev: GameStatus, p: Props)
    requires prev == p.gameStatus
    ensures DidUpdate(prev, p) == []
  {
  }

  /** A concrete update in which both the game-over and the rematch rules
      raise the prompt: the status enters `gameOver` while the rematch state
      moves to `in_approval`, for a player whose flag is still false. */
  lemma DoublePromptInOneUpdate()
    ensures var me := Player(Registered(1), "me", Won);
            var prev := GameStatus(Playing, None, false, NoneRequested);
            var p := Props(Registered(1), [me], false, GameStatus(GameOver, None, false, InApproval));
            DidUpdate(prev, p) == [GameResultToast(YouWon), ActionsAfterGame, ActionsAfterGame]
  {
  }

  // ---------------------------------------------------------------------
  // The prompt's open and close callbacks

  /** The store's `showToastActionsAfterGame` flag, together with the number
      of reject-rematch requests sent so far. */
  datatype UiState = UiState(showToastActionsAfterGame: bool, rejectRequests: nat)

  datatype PromptEvent = Opened | Closed

  /** onOpen: the flag becomes true and nothing else changes. */
  function OnOpen(s: UiState): (t: UiState)
    ensures t.showToastActionsAfterGame
    ensures t.rejectRequests == s.rejectRequests
  {
    s.(showToastActionsAfterGame := true)
  }

  /** onClose: the flag becomes false and exactly one reject-rematch request
      is sent. */
  function OnClose(s: UiState): (t: UiState)
    ensures !t.showToastActionsAfterGame
    ensures t.rejectRequests == s.rejectRequests + 1
  {
    UiState(false, s.rejectRequests + 1)
  }

  function Step(s: UiState, e: PromptEvent): UiState {
    match e
    case Opened => OnOpen(s)
    case Closed => OnClose(s)
  }

  /** The UI state after the prompt callbacks `es` fire in order. */
  function Replay(s: UiState, es: seq<PromptEvent>): UiState
    decreases |es|
  {
    if |es| == 0 then s else Replay(Step(s, es[0]), es[1..])
  }

  function Closes(es: seq<PromptEvent>): nat
    decreases |es|
  {
    if |es| == 0 then 0 else (if es[0] == Closed then 1 else 0) + Closes(es[1..])
  }

  /** Over any sequence of callbacks, one reject-rematch request is sent per
      close, and the flag records whether the last callback was an open. */
  lemma {:induction false} ReplayTracksCallbacks(s: UiState, es: seq<PromptEvent>)
    ensures Replay(s, es).rejectRequests == s.rejectRequests + Closes(es)
    ensures Replay(s, es).showToastActionsAfterGame ==
              if |es| == 0 then s.showToastActionsAfterGame else es[|es| - 1] == Opened
    decreases |es|
  {
    if |es| > 0 {
      ReplayTracksCallbacks(Step(s, es[0]), es[1..]);
      if |es| > 1 {
        assert es[1..][|es[1..]| - 1] == es[|es| - 1];
      }
    }
  }

  /** Once the prompt has opened, the flag it sets suppresses any further
      prompt; once it has closed, a player can be offered it again. */
  lemma FlagGatesPrompt(s: UiState, p: Props)
    requires IsCurrentUserPlayer(p)
    ensures ShowActionsAfterGame(p.(isShowActionsAfterGame := OnOpen(s).showToastActionsAfterGame)) == []
    ensures ShowActionsAfterGame(p.(isShowActionsAfterGame := OnClose(s).showToastActionsAfterGame))
            == [ActionsAfterGame]
  {
  }
}
