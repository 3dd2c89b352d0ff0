/**
 * The game screen and the game-over screen: the level cursor that walks
 * through the three levels, the mission status it reports to the player,
 * and the requests both screens make of the state stack.
 *
 * The levels themselves (world update, collision, spawning) are oracles:
 * a level's update is told whether the player is still alive and whether
 * the player has reached the end. The state stack only records requests;
 * applying them is not part of this model.
 */
module GameFlow {
  import opened Input
  import opened Commands
  import opened PlayerInput

  /** The screens this core asks the stack for. */
  datatype StateId = Menu | Pause | GameOver

  /** One pending change of the state stack. */
  datatype StackRequest = Push(id: StateId) | Pop | Clear

  /** sf::seconds(3), in microseconds. */
  const GameOverDelay: int := 3_000_000

  /** The stack's pending-change list, which requestStackPush and friends append to. */
  class StateStack {
    var pending: seq<StackRequest>

    constructor ()
      ensures pending == []
    {
      pending := [];
    }

    method RequestPush(id: StateId)
      modifies this
      ensures pending == old(pending) + [Push(id)]
    {
      pending := pending + [Push(id)];
    }

    method RequestPop()
      modifies this
      ensures pending == old(pending) + [Pop]
    {
      pending := pending + [Pop];
    }

    method RequestClear()
      modifies this
      ensures pending == old(pending) + [Clear]
    {
      pending := pending + [Clear];
    }
  }

  // ---------------------------------------------------------------------
  // Levels
  // ---------------------------------------------------------------------

  /** GameState::CurrentLevel. */
  datatype CurrentLevel = LVL_1 | LVL_2 | LVL_3

  /** The enumerator's value, which is what the screen's switch statements test. */
  function Ordinal(l: CurrentLevel): nat {
    match l
    case LVL_1 => 0
    case LVL_2 => 1
    case LVL_3 => 2
  }

  /** Where a level is in its life: never started, running, or cleared. */
  datatype Phase = Idle | Running | Cleared

  /** The phase of level l while the cursor is on `cursor`: earlier levels are cleared, later ones idle. */
  function PhaseUnder(l: CurrentLevel, cursor: CurrentLevel): Phase {
    if Ordinal(l) < Ordinal(cursor) then Cleared
    else if l == cursor then Running
    else Idle
  }

  /**
   * A level as the game screen sees it: its command queue, whether it has
   * been initialised or cleared, and what its last update said about the
   * player.
   */
  class Level {
    const commands: CommandQueue
    var phase: Phase
    var playerAlive: bool
    var playerAtEnd: bool

    constructor ()
      ensures fresh(commands) && commands.items == []
      ensures phase == Idle && playerAlive && !playerAtEnd
    {
      commands := new CommandQueue();
      phase := Idle;
      playerAlive := true;
      playerAtEnd := false;
    }

    method Initialize()
      modifies this`phase
      ensures phase == Running
    {
      phase := Running;
    }

    method ClearLevel()
      modifies this`phase
      ensures phase == Cleared
    {
      phase := Cleared;
    }

    /**
     * The world update. What it decides about the player comes in as
     * `alive` and `atEnd`, and its queue as the update leaves it (commands
     * the scene took off it, and those its entities pushed) as `queue`.
     */
    method Update(dt: int, alive: bool, atEnd: bool, queue: seq<Command>)
      modifies this`playerAlive, this`playerAtEnd, commands
      ensures playerAlive == alive && playerAtEnd == atEnd
      ensures commands.items == queue
    {
      playerAlive := alive;
      playerAtEnd := atEnd;
      commands.items := queue;
    }

    predicate HasAlivePlayer()
      reads this
    {
      playerAlive
    }

    predicate HasPlayerReachedEnd()
      reads this
    {
      playerAtEnd
    }
  }

  // ---------------------------------------------------------------------
  // Level progression, as functions of one tick's outcome
  // ---------------------------------------------------------------------

  /** What one update of the current level found: the player died, finished, or plays on. */
  datatype Verdict = Lost | Finished | Playing

  /** The dead-player check is made first, so a dead player never finishes. */
  function VerdictOf(alive: bool, atEnd: bool): (v: Verdict)
    ensures v == Lost <==> !alive
    ensures v == Finished <==> alive && atEnd
  {
    if !alive then Lost else if atEnd then Finished else Playing
  }

  /** The level after a tick: a finished level 1 or 2 moves to the next one. */
  function NextLevel(l: CurrentLevel, v: Verdict): CurrentLevel {
    if v != Finished then l
    else match l
      case LVL_1 => LVL_2
      case LVL_2 => LVL_3
      case LVL_3 => LVL_3
  }

  /** The mission status after a tick. */
  function StatusAfter(s: MissionStatus, v: Verdict): MissionStatus {
    match v
    case Lost => MissionFailure
    case Finished => MissionSuccess
    case Playing => s
  }

  /** What a tick asks of the stack: the game-over screen on a death or on finishing level 3. */
  function RequestsAfter(l: CurrentLevel, v: Verdict): seq<StackRequest> {
    if v == Lost || (v == Finished && l == LVL_3) then [Push(GameOver)] else []
  }

  /**
   * The cursor moves by at most one level per tick, never backwards and
   * never past level 3; it moves exactly when a level before the last is
   * finished.
   */
  lemma LevelStep(l: CurrentLevel, v: Verdict)
    ensures Ordinal(l) <= Ordinal(NextLevel(l, v)) <= Ordinal(l) + 1
    ensures Ordinal(NextLevel(l, v)) <= Ordinal(LVL_3)
    ensures NextLevel(l, v) != l <==> v == Finished && l != LVL_3
  {
  }

  /** The game-over screen is asked for exactly on a death or a finished last level, and then the level stays. */
  lemma GameOverWhen(l: CurrentLevel, v: Verdict)
    ensures RequestsAfter(l, v) != [] <==> v == Lost || (v == Finished && l == LVL_3)
    ensures RequestsAfter(l, v) != [] ==> NextLevel(l, v) == l && RequestsAfter(l, v) == [Push(GameOver)]
    ensures RequestsAfter(l, v) != [] ==> StatusAfter(MissionRunning, v) in {MissionFailure, MissionSuccess}
  {
  }

  /** A dead player loses whether or not the end was reached. */
  lemma DeathBeatsEnd(l: CurrentLevel, s: MissionStatus, atEnd: bool)
    ensures StatusAfter(s, VerdictOf(false, atEnd)) == MissionFailure
    ensures NextLevel(l, VerdictOf(false, atEnd)) == l
    ensures RequestsAfter(l, VerdictOf(false, atEnd)) == [Push(GameOver)]
  {
  }

  /** The level reached after a run of ticks. */
  function RunLevel(l: CurrentLevel, vs: seq<Verdict>): CurrentLevel
    decreases |vs|
  {
    if vs == [] then l else RunLevel(NextLevel(l, vs[0]), vs[1..])
  }

  /** The mission status after a run of ticks. */
  function RunStatus(s: MissionStatus, vs: seq<Verdict>): MissionStatus
    decreases |vs|
  {
    if vs == [] then s else RunStatus(StatusAfter(s, vs[0]), vs[1..])
  }

  /** Over any run the cursor only moves forward, by at most one level per tick. */
  lemma {:induction false} RunLevelBounds(l: CurrentLevel, vs: seq<Verdict>)
    ensures Ordinal(l) <= Ordinal(RunLevel(l, vs)) <= Ordinal(l) + |vs|
    ensures Ordinal(RunLevel(l, vs)) <= Ordinal(LVL_3)
    decreases |vs|
  {
    if vs != [] {
      LevelStep(l, vs[0]);
      RunLevelBounds(NextLevel(l, vs[0]), vs[1..]);
    }
  }

  /**
   * No run of the levels ever reports MissionWin: finishing level 3 is
   * reported as MissionSuccess, so the game-over screen never shows its
   * winning message after a game.
   */
  lemma {:induction false} RunNeverWins(s: MissionStatus, vs: seq<Verdict>)
    requires s != MissionWin
    ensures RunStatus(s, vs) != MissionWin
    decreases |vs|
  {
    if vs != [] {
      RunNeverWins(StatusAfter(s, vs[0]), vs[1..]);
    }
  }

  // ---------------------------------------------------------------------
  // GameState
  // ---------------------------------------------------------------------

  /** The playing screen: three levels, a cursor over them, the player and the stack. */
  class GameState {
    const level1: Level
    const level2: Level
    const level3: Level
    var level: CurrentLevel
    const player: Player
    const stack: StateStack

    /** The level the cursor names. */
    function Current(): Level
      reads this`level
    {
      LevelAt(level)
    }

    /** The level with a given ordinal. */
    function LevelAt(l: CurrentLevel): Level {
      match l
      case LVL_1 => level1
      case LVL_2 => level2
      case LVL_3 => level3
    }

    /**
     * Levels before the cursor are cleared, the current one runs, and
     * later ones have not started; the levels and their queues are
     * distinct objects.
     */
    ghost predicate Valid()
      reads this`level, level1, level2, level3, player
    {
      && level1 != level2 && level2 != level3 && level1 != level3
      && level1.commands != level2.commands && level2.commands != level3.commands
      && level1.commands != level3.commands
      && player.Valid()
      && level1.phase == PhaseUnder(LVL_1, level)
      && level2.phase == PhaseUnder(LVL_2, level)
      && level3.phase == PhaseUnder(LVL_3, level)
    }

    /** Starts on level 1, with only level 1 initialised and the mission running. */
    constructor (player: Player, stack: StateStack)
      requires player.Valid()
      modifies player`missionStatus
      ensures Valid()
      ensures this.player == player && this.stack == stack
      ensures level == LVL_1 && player.missionStatus == MissionRunning
      ensures fresh(level1) && fresh(level2) && fresh(level3)
      ensures fresh(level1.commands) && fresh(level2.commands) && fresh(level3.commands)
    {
      level1 := new Level();
      level2 := new Level();
      level3 := new Level();
      level := LVL_1;
      this.player := player;
      this.stack := stack;
      new;
      level1.Initialize();
      player.SetMissionStatus(MissionRunning);
    }

    /**
     * update: the current level runs; a dead player fails the mission and
     * calls up the game-over screen; otherwise a finished level 1 or 2
     * succeeds and hands over to the next level, and a finished level 3
     * succeeds and calls up the game-over screen. The held keys then go
     * to the queue of the level that was updated, after whatever that
     * level's own update left on it (`queue`). Always true.
     */
    method Update(dt: int, alive: bool, atEnd: bool, queue: seq<Command>, pressed: set<Key>) returns (r: bool)
      requires Valid()
      modifies this`level, player`missionStatus, stack, level1.commands, level2.commands, level3.commands
      modifies level1, level2, level3
      ensures Valid() && r
      ensures level == NextLevel(old(level), VerdictOf(alive, atEnd))
      ensures player.missionStatus == StatusAfter(old(player.missionStatus), VerdictOf(alive, atEnd))
      ensures stack.pending == old(stack.pending) + RequestsAfter(old(level), VerdictOf(alive, atEnd))
      ensures LevelAt(old(level)).commands.items ==
                queue + RealtimeCommands(player.keyBinding, pressed, player.isMouseControlled, -1)
      ensures forall l :: l != old(level) ==> LevelAt(l).commands.items == old(LevelAt(l).commands.items)
    {
      match level {
      case LVL_1 =>
        Play(level1, dt, alive, atEnd, queue, pressed);
      case LVL_2 =>
        Play(level2, dt, alive, atEnd, queue, pressed);
      case LVL_3 =>
        Play(level3, dt, alive, atEnd, queue, pressed);
      }
      r := true;
    }

    /** One case of update's switch, for the current level `current`. */
    method Play(current: Level, dt: int, alive: bool, atEnd: bool, queue: seq<Command>, pressed: set<Key>)
      requires Valid() && current == Current()
      modifies this`level, player`missionStatus, stack, level1.commands, level2.commands, level3.commands
      modifies level1, level2, level3
      ensures Valid()
      ensures level == NextLevel(old(level), VerdictOf(alive, atEnd))
      ensures player.missionStatus == StatusAfter(old(player.missionStatus), VerdictOf(alive, atEnd))
      ensures stack.pending == old(stack.pending) + RequestsAfter(old(level), VerdictOf(alive, atEnd))
      ensures LevelAt(old(level)).commands.items ==
                queue + RealtimeCommands(player.keyBinding, pressed, player.isMouseControlled, -1)
      ensures forall l :: l != old(level) ==> LevelAt(l).commands.items == old(LevelAt(l).commands.items)
    {
      current.Update(dt, alive, atEnd, queue);
      Judge(current);
      player.HandleRealtimeInput(pressed, current.commands);
    }

    /** The dead-player check, then the end check, on what the current level's update found. */
    method Judge(current: Level)
      requires Valid() && current == Current()
      modifies this`level, player`missionStatus, stack, level1, level2, level3
      ensures Valid()
      ensures current.playerAlive == old(current.playerAlive) && current.playerAtEnd == old(current.playerAtEnd)
      ensures level == NextLevel(old(level), VerdictOf(current.playerAlive, current.playerAtEnd))
      ensures player.missionStatus == StatusAfter(old(player.missionStatus), VerdictOf(current.playerAlive, current.playerAtEnd))
      ensures stack.pending == old(stack.pending) + RequestsAfter(old(level), VerdictOf(current.playerAlive, current.playerAtEnd))
    {
      if !current.HasAlivePlayer() {
        player.SetMissionStatus(MissionFailure);
        stack.RequestPush(GameOver);
      } else if current.HasPlayerReachedEnd() {
        player.SetMissionStatus(MissionSuccess);
        if level == LVL_3 {
          stack.RequestPush(GameOver);
        } else {
          Advance();
        }
      }
    }

    /** A finished level 1 or 2: the cursor moves on, the old level is cleared and the next one started. */
    method Advance()
      requires Valid() && level != LVL_3
      modifies this`level, level1`phase, level2`phase, level3`phase
      ensures Valid() && level == NextLevel(old(level), Finished)
    {
      if level == LVL_1 {
        level := LVL_2;
        level1.ClearLevel();
        level2.Initialize();
      } else {
        level := LVL_3;
        level2.ClearLevel();
        level3.Initialize();
      }
    }

    /**
     * handleEvent: the player turns the event into commands for the
     * current level, and Escape calls up the pause screen. Always true.
     */
    method HandleEvent(event: Event) returns (r: bool)
      requires Valid()
      modifies level1.commands, level2.commands, level3.commands, stack
      ensures Valid() && r
      ensures Current().commands.items ==
                old(Current().commands.items)
                + EventCommands(player.keyBinding, player.mouseBinding, player.isMouseControlled, event)
      ensures forall l :: l != level ==> LevelAt(l).commands.items == old(LevelAt(l).commands.items)
      ensures stack.pending == old(stack.pending) + if event == KeyPressed(Escape) then [Push(Pause)] else []
    {
      match level {
      case LVL_1 =>
        player.HandleEvent(event, level1.commands);
      case LVL_2 =>
        player.HandleEvent(event, level2.commands);
      case LVL_3 =>
        player.HandleEvent(event, level3.commands);
      }

      if event.KeyPressed? && event.key == Escape {
        stack.RequestPush(Pause);
      }
      r := true;
    }
  }

  // ---------------------------------------------------------------------
  // GameOverState
  // ---------------------------------------------------------------------

  /** The game-over caption for a mission status. */
  function GameOverMessage(s: MissionStatus): string {
    if s == MissionFailure then "Mission failed!"
    else if s == MissionSuccess then "Mission successful!"
    else "You win!"
  }

  /** Failed and won missions go back to the menu; any other status pops the screen. */
  predicate ReturnsToMenu(s: MissionStatus) {
    s == MissionFailure || s == MissionWin
  }

  /** What the game-over screen asks of the stack once its time is up. */
  function ExitRequests(s: MissionStatus): seq<StackRequest> {
    if ReturnsToMenu(s) then [Clear, Push(Menu)] else [Pop]
  }

  /**
   * The caption tells failure, success and the rest apart: two statuses
   * share a caption exactly when they fall in the same one of those
   * three groups.
   */
  lemma MessageSeparates(s: MissionStatus, t: MissionStatus)
    ensures GameOverMessage(s) == GameOverMessage(t) <==>
              (s == MissionFailure <==> t == MissionFailure) && (s == MissionSuccess <==> t == MissionSuccess)
  {
    var ms, mt := GameOverMessage(s), GameOverMessage(t);
    if (s == MissionFailure || s == MissionSuccess) && (t == MissionFailure || t == MissionSuccess) {
      if s != t {
        assert ms[8] != mt[8];
      }
    } else if s == MissionFailure || s == MissionSuccess || t == MissionFailure || t == MissionSuccess {
      assert ms[0] != mt[0];
    }
  }

  /**
   * The exit always changes the stack; it leaves the menu on top exactly
   * for a failed or won mission, and the caption is "You win!" for a
   * won one. A finished game reports success, so it pops.
   */
  lemma ExitShape(s: MissionStatus)
    ensures ExitRequests(s) != []
    ensures ExitRequests(s)[|ExitRequests(s)| - 1] == Push(Menu) <==> s == MissionFailure || s == MissionWin
    ensures Clear in ExitRequests(s) <==> ExitRequests(s)[|ExitRequests(s)| - 1] == Push(Menu)
    ensures s == MissionWin ==> GameOverMessage(s) == "You win!"
    ensures ExitRequests(StatusAfter(MissionRunning, Finished)) == [Pop]
  {
  }

  /** The requests of a run of game-over updates, starting from `elapsed` microseconds. */
  function ExitRun(s: MissionStatus, elapsed: int, dts: seq<int>): seq<StackRequest>
    decreases |dts|
  {
    if dts == [] then []
    else
      var now := elapsed + dts[0];
      (if now > GameOverDelay then ExitRequests(s) else []) + ExitRun(s, now, dts[1..])
  }

  function Sum(dts: seq<int>): int
    decreases |dts|
  {
    if dts == [] then 0 else dts[0] + Sum(dts[1..])
  }

  /**
   * With non-negative frame times, a run that has not accumulated more
   * than three seconds asks nothing of the stack.
   */
  lemma {:induction false} QuietForThreeSeconds(s: MissionStatus, elapsed: int, dts: seq<int>)
    requires forall i :: 0 <= i < |dts| ==> dts[i] >= 0
    requires elapsed + Sum(dts) <= GameOverDelay
    ensures ExitRun(s, elapsed, dts) == []
    decreases |dts|
  {
    if dts != [] {
      QuietForThreeSeconds(s, elapsed + dts[0], dts[1..]);
    }
  }

  /** n copies of a run of requests, one after another. */
  function Repeat(rs: seq<StackRequest>, n: nat): seq<StackRequest>
    decreases n
  {
    if n == 0 then [] else rs + Repeat(rs, n - 1)
  }

  /**
   * Once past three seconds, every further update sends the exit requests
   * again: the log is one copy of them per update.
   */
  lemma {:induction false} ExitRepeats(s: MissionStatus, elapsed: int, dts: seq<int>)
    requires forall i :: 0 <= i < |dts| ==> dts[i] >= 0
    requires elapsed > GameOverDelay
    ensures ExitRun(s, elapsed, dts) == Repeat(ExitRequests(s), |dts|)
    ensures |ExitRun(s, elapsed, dts)| == |dts| * |ExitRequests(s)|
    decreases |dts|
  {
    if dts != [] {
      ExitRepeats(s, elapsed + dts[0], dts[1..]);
      assert |dts| * |ExitRequests(s)| == |ExitRequests(s)| + (|dts| - 1) * |ExitRequests(s)|;
    }
  }

  /** The game-over screen: the status captured when it opened, and the time it has been shown. */
  class GameOverState {
    const status: MissionStatus
    const message: string
    var elapsed: int
    const stack: StateStack

    constructor (player: Player, stack: StateStack)
      ensures status == player.missionStatus && message == GameOverMessage(status)
      ensures elapsed == 0 && this.stack == stack
    {
      var captured := player.GetMissionStatus();
      status := captured;
      if captured == MissionFailure {
        message := "Mission failed!";
      } else if captured == MissionSuccess {
        message := "Mission successful!";
      } else {
        message := "You win!";
      }
      elapsed := 0;
      this.stack := stack;
    }

    /**
     * update: the time shown grows by dt; past three seconds a failed or
     * won mission clears the stack and pushes the menu, any other pops
     * this screen. Never lets the screens below update.
     */
    method Update(dt: int) returns (r: bool)
      modifies this`elapsed, stack
      ensures !r
      ensures elapsed == old(elapsed) + dt
      ensures stack.pending == old(stack.pending) + ExitRun(status, old(elapsed), [dt])
    {
      elapsed := elapsed + dt;
      if elapsed > GameOverDelay {
        if status == MissionFailure || status == MissionWin {
          stack.RequestClear();
          stack.RequestPush(Menu);
        } else {
          stack.RequestPop();
        }
      }
      assert [dt][1..] == [];
      return false;
    }

    /** handleEvent: the game-over screen swallows every event. */
    method HandleEvent(event: Event) returns (r: bool)
      ensures !r
    {
      return false;
    }
  }
}
