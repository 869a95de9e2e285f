/** The task header of the game screen: the task's name, its difficulty
    badge and description, and beside them either the game's final status,
    a countdown to the time limit, or a timer counting up from the start. */
module Task {
  import opened Wrappers
  import opened Games
  import GameList

  /** Bootstrap badge class of each difficulty level. */
  const Levels: map<string, string> :=
    map["elementary" := "info", "easy" := "success", "medium" := "warning", "hard" := "danger"]

  /** The badge class of a level; a level the table lacks reads as `undefined`. */
  function BadgeClass(level: string): (c: Option<string>)
    ensures c == GameList.BadgeClass(level)
  {
    if level in Levels then Some(Levels[level]) else None
  }

  /** The header's badge table is the lobby's. */
  lemma SameBadgeTable()
    ensures Levels == GameList.LevelToClass
  {
  }

  /** JavaScript truthiness of `timeoutSeconds`: `null`, `undefined` and 0
      are falsy. */
  predicate HasTimeout(timeoutSeconds: Option<int>) {
    timeoutSeconds.Some? && timeoutSeconds.value != 0
  }

  /** What the header shows in place of a clock. `time` is the game's start
      time, handed to the timer components untouched. */
  datatype TimerView =
    | StatusName(status: Status)
    | Countdown(time: string, timeoutSeconds: int)
    | Elapsed(time: string)

  /** A finished game shows its status; otherwise a game with a time limit
      counts down and one without counts up. */
  function RenderTimer(time: string, timeoutSeconds: Option<int>, status: Status): (v: TimerView)
    ensures status == GameOver || status == Timeout ==> v == StatusName(status)
    ensures v.StatusName? ==> status == GameOver || status == Timeout
    ensures v.Countdown? <==> status != GameOver && status != Timeout && HasTimeout(timeoutSeconds)
    ensures v.Countdown? ==> v.time == time && Some(v.timeoutSeconds) == timeoutSeconds
    ensures v.Elapsed? ==> v.time == time
  {
    if status == GameOver || status == Timeout then StatusName(status)
    else if HasTimeout(timeoutSeconds) then Countdown(time, timeoutSeconds.value)
    else Elapsed(time)
  }

  /** The caption before the clock: "Timeout in: " when the game has a time
      limit, nothing (`false`) otherwise. */
  function RenderTimeoutText(timeoutSeconds: Option<int>): (t: Option<string>)
    ensures t.Some? <==> HasTimeout(timeoutSeconds)
    ensures t.Some? ==> t.value == "Timeout in: "
  {
    if !HasTimeout(timeoutSeconds) then None else Some("Timeout in: ")
  }

  /** While the game runs, the caption appears exactly when the clock counts
      down; once it has ended, the caption still precedes the status name of
      a game that had a time limit. */
  lemma CaptionMatchesClock(time: string, timeoutSeconds: Option<int>, status: Status)
    ensures status != GameOver && status != Timeout ==>
              (RenderTimeoutText(timeoutSeconds).Some? <==>
                 RenderTimer(time, timeoutSeconds, status).Countdown?)
    ensures (status == GameOver || status == Timeout) && HasTimeout(timeoutSeconds) ==>
              RenderTimeoutText(timeoutSeconds) == Some("Timeout in: ")
              && RenderTimer(time, timeoutSeconds, status) == StatusName(status)
  {
  }

  /** The task as the store holds it; an absent field is `None`. A missing
      task (`null`, `undefined` or `{}`) has every field absent. */
  datatype TaskInfo = TaskInfo(name: Option<string>, description: Option<string>, level: Option<string>)

  /** lodash's `isEmpty` on the task: it has no field at all. */
  predicate IsEmpty(task: TaskInfo) {
    task.name.None? && task.description.None? && task.level.None?
  }

  /** The rendered header card. */
  datatype Header = Header(
    name: Option<string>,
    level: Option<string>,
    badge: Option<string>,
    description: Option<string>,
    timeoutText: Option<string>,
    timer: TimerView)

  /** The header card, or nothing for an empty task. */
  function Render(task: TaskInfo, time: string, status: Status, timeoutSeconds: Option<int>): (h: Option<Header>)
    ensures h.None? <==> IsEmpty(task)
    ensures h.Some? ==> h.value.name == task.name && h.value.level == task.level
                        && h.value.description == task.description
    ensures h.Some? ==> h.value.badge == (if task.level.Some? then GameList.BadgeClass(task.level.value) else None)
    ensures h.Some? ==> h.value.timer == RenderTimer(time, timeoutSeconds, status)
                        && h.value.timeoutText == RenderTimeoutText(timeoutSeconds)
  {
    if IsEmpty(task) then None
    else
      var badge := match task.level
        case Some(l) => BadgeClass(l)
        case None => None;
      Some(Header(task.name, task.level, badge, task.description,
                  RenderTimeoutText(timeoutSeconds), RenderTimer(time, timeoutSeconds, status)))
  }
}
