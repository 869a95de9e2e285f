# Decision rules of the codebattle game screen and lobby

A model of the decision logic inside three React components of the
codebattle web client, with each rule lifted into a pure function that
returns an intent value in place of JSX or a toast call:

- **Notification handler** (`NotificationsHandler.jsx`): on mount and on
  every update it compares the previous and current game-status snapshots
  and raises one-shot toasts. These are the pass/fail result of a solution
  check, the game result (your win, your opponent's win, or a named winner
  for a spectator) and the "actions after game" prompt. The prompt's open
  and close callbacks toggle the store flag `showToastActionsAfterGame`. On
  close they also send a reject-rematch request.
- **Lobby list** (`GameList.jsx`): the result icon beside each player
  (flag, trophy or empty), the one- or two-cell player layout, the action
  buttons of an active game (Show, Show+Cancel, Join or none), and the
  difficulty-badge and time-limit tables.
- **Task header** (`Task.jsx`): the clock (the final status, a countdown or
  an elapsed timer), the "Timeout in: " caption, the empty-task guard and
  the badge table.

Files: `games.dfy` (shared status, rematch, result and user types),
`wrappers.dfy` (`Option`), `lookup.dfy` (an in-order first-match search,
which is how lodash's `find` behaves), `notifications.dfy`, `game_list.dfy`
and `task.dfy`.

Modelling choices:
- Game-status codes come from a configuration file that is not part of
  this model. They are distinct constructors of `Games.Status`, and every
  other code is `OtherStatus(name)`.
- The handler's player table is an ordered sequence. Each entry's key is
  its player's id, so "the current user is a key of the table" means "some
  entry has the current user's id".
- JavaScript truthiness is written out. `solutionStatus` is truthy only
  when it is `true`. `timeoutSeconds` is truthy when it is present and
  non-zero.
- An empty task (`null`, `undefined` or `{}`) is a `TaskInfo` whose three
  fields are all absent. The converse does not hold in the source; see
  "Left out".

## Model

| member | source | states |
|---|---|---|
| Lookup.FindFirst | services/app/assets/js/widgets/containers/NotificationsHandler.jsx:111 | lodash `find` semantics: the result is the index of the first element satisfying the predicate, and it is None exactly when no element does |
| Notifications.IsCurrentUserPlayer | services/app/assets/js/widgets/containers/NotificationsHandler.jsx:146-148 | the user counts as a player iff some entry of the player table has the current user's id |
| Notifications.Winner | services/app/assets/js/widgets/containers/NotificationsHandler.jsx:111 | the winner exists iff some player's result is `won`; when it exists it is the first such player |
| Notifications.ShowCheckingStatusMessage | services/app/assets/js/widgets/containers/NotificationsHandler.jsx:58-72 | exactly one checking toast, reporting success iff `solutionStatus` is truthy |
| Notifications.ShowActionsAfterGame | services/app/assets/js/widgets/containers/NotificationsHandler.jsx:74-101 | no prompt for a non-player or while the flag is already set; otherwise exactly one prompt |
| Notifications.ShowGameResultMessage | services/app/assets/js/widgets/containers/NotificationsHandler.jsx:104-138 | needs a winner, since the source reads `winner.id`; personal win iff the current user is the first `won` player; "opponent won" only for a player; a named-winner message only for a non-player, carrying the name of the first `won` player |
| Notifications.DidMount | services/app/assets/js/widgets/containers/NotificationsHandler.jsx:24-32 | on mount a prompt is raised iff the status is gameOver, rematchInApproval or rematchRejected and the prompt itself would be shown; any other status raises nothing; at most one toast |
| Notifications.DidUpdate | services/app/assets/js/widgets/containers/NotificationsHandler.jsx:34-56 | at most four toasts; every checking toast matches `solutionStatus`; something is raised only when one of the three rules fires |
| Notifications.CountOf | services/app/assets/js/widgets/containers/NotificationsHandler.jsx:34-56 | the count of toasts of one kind is zero exactly when no toast has that kind, and never exceeds the number of toasts |
| Notifications.CheckingToastRule | services/app/assets/js/widgets/containers/NotificationsHandler.jsx:44-46 | an update raises exactly one checking toast when a player's `checking` goes from true to false, and none otherwise; that toast comes first and reports the solution status |
| Notifications.GameResultRule | services/app/assets/js/widgets/containers/NotificationsHandler.jsx:48-51 | exactly one result toast when the status changes into gameOver, and it is the game-result message for the current props, placed right after the checking toast when there is one and otherwise first, so it precedes the rematch rule's prompt; none when the previous status was already gameOver |
| Notifications.PromptFollowsResult | services/app/assets/js/widgets/containers/NotificationsHandler.jsx:48-51 | on entry into gameOver, the game-result message is immediately followed by the prompt for a player with no prompt shown |
| Notifications.MountAgreesWithUpdate | services/app/assets/js/widgets/containers/NotificationsHandler.jsx:24-51 | an update entering gameOver with neither the checking nor the rematch rule firing raises the result message followed by exactly what a mount in that state raises |
| Notifications.PromptRule | services/app/assets/js/widgets/containers/NotificationsHandler.jsx:42-55 | prompts per update = one for entering gameOver plus one for a rematch state that changes to something other than none/rejected, for a player with the flag clear; zero otherwise |
| Notifications.QuietUpdate | services/app/assets/js/widgets/containers/NotificationsHandler.jsx:42-55 | an update with an unchanged game status (in particular an unchanged rematch state) raises nothing |
| Notifications.DoublePromptInOneUpdate | services/app/assets/js/widgets/containers/NotificationsHandler.jsx:48-55 | both rules read the same flag snapshot, so an update that enters gameOver while the rematch state moves to in_approval raises the prompt twice |
| Notifications.OnOpen | services/app/assets/js/widgets/containers/NotificationsHandler.jsx:99 | opening sets the flag and sends no reject request |
| Notifications.OnClose | services/app/assets/js/widgets/containers/NotificationsHandler.jsx:95-98 | closing clears the flag and sends exactly one reject-rematch request |
| Notifications.ReplayTracksCallbacks | services/app/assets/js/widgets/containers/NotificationsHandler.jsx:94-99 | over any sequence of open/close callbacks, reject requests = number of closes, and the flag is set iff the last callback was an open |
| Notifications.FlagGatesPrompt | services/app/assets/js/widgets/containers/NotificationsHandler.jsx:81-99 | after an open the flag suppresses further prompts; after a close a player is offered the prompt again |
| GameList.BadgeClass | services/app/assets/js/widgets/containers/GameList.jsx:30-35 | elementary→info, easy→success, medium→warning, hard→danger; no class for a level outside the table |
| GameList.BadgeClassesDistinct | services/app/assets/js/widgets/containers/GameList.jsx:30-35 | different levels get different badge classes |
| GameList.TimeoutLabel | services/app/assets/js/widgets/containers/GameList.jsx:19-27 | a label exists exactly for 0, 60, 120, 300, 600, 1200 and 3600 seconds, each with its own i18n key |
| GameList.TimeoutLabelsDistinct | services/app/assets/js/widgets/containers/GameList.jsx:19-27 | different time limits have different labels, which the time-limit menu relies on as entry keys (line 266) |
| GameList.ResultIcon | services/app/assets/js/widgets/containers/GameList.jsx:48-78 | flag iff the player gave up; trophy iff the player won and the opponent did not give up; empty otherwise |
| GameList.DecidedGameMarksOneSide | services/app/assets/js/widgets/containers/GameList.jsx:48-78 | in a decided game exactly one of the two players shows an icon; a win over a player who gave up shows the flag, not the trophy |
| GameList.TwoTrophiesNeedTwoWinners | services/app/assets/js/widgets/containers/GameList.jsx:64-75 | both players show a trophy iff both results are `won` |
| GameList.RenderPlayers | services/app/assets/js/widgets/containers/GameList.jsx:86-107 | one user: a single two-column cell with an empty icon; two or more: a one-column cell for each of the first two users, each icon computed against the other |
| GameList.PlayersFillTwoColumns | services/app/assets/js/widgets/containers/GameList.jsx:86-107 | every row's player cells span exactly two columns |
| GameList.RenderPlayersSymmetric | services/app/assets/js/widgets/containers/GameList.jsx:95-106 | swapping two players swaps their cells |
| GameList.IsPlayer | services/app/assets/js/widgets/containers/GameList.jsx:116 | the user is a player iff some game user has the user's id |
| GameList.GameActionButtons | services/app/assets/js/widgets/containers/GameList.jsx:124-168 | playing: Show for `/games/<id>`. Waiting for an opponent: Show+Cancel for a player, nothing for an anonymous non-player, Join on `/games/<id>/join` for any other user. Any other state: nothing |
| GameList.ButtonsTargetTheGame | services/app/assets/js/widgets/containers/GameList.jsx:125-160 | every button targets a path under `/games/<id>`; exactly the Join button targets `/games/<id>/join` |
| GameList.WhoMayCancelOrJoin | services/app/assets/js/widgets/containers/GameList.jsx:133-164 | a delete (Cancel) button appears iff the game waits and the user is a player; a post (Join) button appears iff the game waits and the user is a registered non-player |
| GameList.PlayerCheckPrecedesAnonymous | services/app/assets/js/widgets/containers/GameList.jsx:134-152 | the membership check is made before the anonymity check |
| Task.BadgeClass | services/app/assets/js/widgets/components/Task.jsx:10-16 | the header's badge for every level is the lobby's badge |
| Task.SameBadgeTable | services/app/assets/js/widgets/components/Task.jsx:11-16 | the header's level table equals the lobby's table |
| Task.RenderTimer | services/app/assets/js/widgets/components/Task.jsx:30-40 | gameOver or timeout shows the status name whatever the time limit; otherwise a countdown iff the time limit is truthy, else an elapsed timer, both for the given start time |
| Task.RenderTimeoutText | services/app/assets/js/widgets/components/Task.jsx:26-29 | the caption "Timeout in: " iff the time limit is truthy, else nothing |
| Task.CaptionMatchesClock | services/app/assets/js/widgets/components/Task.jsx:26-40 | while the game runs the caption appears iff the clock counts down; after the end, a timed game still shows the caption before the status name |
| Task.Render | services/app/assets/js/widgets/components/Task.jsx:42-71 | nothing iff the task is empty; otherwise the task's name, level, description, the lobby's badge for the level (no badge class when the level is absent), the caption and the clock |

## Left out

- JSX markup, CSS classes other than the level table, tooltips and layout are presentation only.
- react-toastify options (auto-close after 3000 ms, position, close button) belong to a foreign library. A toast is an intent value.
- The `sendRejectToRematch` network call is a count of requests sent. `updateGameUI` is an update of the flag. Redux `connect`, dispatch and the store selectors are store plumbing.
- Gon globals are parameters: the current user is passed to `GameList.GameActionButtons`. The CSRF token is not modelled.
- `moment` dates and durations, i18n translation, `qs` query strings and Markdown rendering come from external libraries. Time-limit labels are kept as their untranslated i18n keys.
- The `Timer` and `CountdownTimer` internals and the game-status code values come from files that are not part of this model.
- GameList's `componentDidMount`, `updateTimeoutSeconds`, the new-game menus, `renderActiveGames`, `renderGameContainers` and `render` only fetch data, dispatch actions or lay out the rows, so they are not modelled. The `newGame.timeoutSeconds || 0` default is not modelled either.
- The bot selector is dead code. Nothing renders it.
- Notifications.DidUpdate: when the status enters gameOver and no player has won, the source throws on `winner.id`. The model excludes this case by a precondition and does not model the exception.
- GameList.RenderPlayers: a game without users throws in the source. The model excludes it by a precondition.
- Notifications.ShowGameResultMessage: assumes the current user's id and the winner's id have the same JavaScript type. The strict `currentUserId === winner.id` comparison (NotificationsHandler.jsx:113) fails for "5" against 5. The model compares ids as values.
- GameList.IsPlayer: assumes the current user's id and the game users' ids have the same JavaScript type, for the same reason (the `_.find` match at GameList.jsx:116).
- Task.Render: treats a task with no name, description or level as empty. lodash's `isEmpty` (Task.jsx:45) is true only for an object with no own keys. A task that has other keys, such as `{id: 7}`, or has those fields set to `undefined`, is still rendered by the source.
- GameList.BadgeClass (and Task.BadgeClass): treats a level that names an inherited JavaScript property, such as `"constructor"`, `"toString"` or `"__proto__"`, as absent. The source's object-literal lookups (GameList.jsx:111, Task.jsx:20) would read the inherited member. Levels outside the four in the table are not expected from the server.
