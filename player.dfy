/**
 * The player: key and mouse-button bindings, the translation of input
 * into commands aimed at the player's aircraft, and the mission status
 * that the game-flow states read and write.
 */
module PlayerInput {
  import opened Input
  import opened Commands
  import opened Bindings

  datatype MissionStatus = MissionRunning | MissionSuccess | MissionFailure | MissionWin

  /** Actions fed every frame while their key is held (isRealtimeAction). */
  predicate IsRealtimeAction(a: Action)
    ensures IsRealtimeAction(a) <==> !(a == Action.LaunchMissile || a == LaunchEnergy)
  {
    match a
    case MoveLeft | MoveRight | MoveDown | MoveUp | Fire | SeekTarget | StopSeek => true
    case _ => false
  }

  /** The four movement actions, which mouse control suppresses. */
  predicate IsMove(a: Action) {
    a == MoveLeft || a == MoveRight || a == MoveUp || a == MoveDown
  }

  /** The command initializeActions binds to an action, retargeted at the player's aircraft. */
  function ActionCommand(a: Action): Command {
    Command(PlayerAircraft, Perform(a))
  }

  /** The commands one discrete event pushes (handleEvent). */
  function EventCommands(keys: map<Key, Action>, buttons: map<MouseButton, Action>, mouse: bool, event: Event): (r: seq<Command>)
    ensures |r| <= 1
    ensures forall c :: c in r ==> c.category == PlayerAircraft && c.work.Perform?
    ensures event.KeyPressed? ==>
              (r != [] <==> event.key in keys && !IsRealtimeAction(keys[event.key]))
    ensures event.KeyPressed? && r != [] ==> r == [ActionCommand(keys[event.key])]
    ensures event.MouseButtonPressed? ==>
              (r != [] <==> mouse && event.button in buttons && IsRealtimeAction(buttons[event.button]))
    ensures event.MouseButtonPressed? && r != [] ==> r == [ActionCommand(buttons[event.button])]
    ensures !event.KeyPressed? && !event.MouseButtonPressed? ==> r == []
  {
    match event
    case KeyPressed(k) =>
      if k in keys && !IsRealtimeAction(keys[k]) then [ActionCommand(keys[k])] else []
    case MouseButtonPressed(b) =>
      if mouse && b in buttons && IsRealtimeAction(buttons[b]) then [ActionCommand(buttons[b])] else []
    case _ => []
  }

  /** Key k is held, bound, realtime, and not a move suppressed by mouse control. */
  predicate Triggers(keys: map<Key, Action>, pressed: set<Key>, mouse: bool, k: int) {
    k in keys && k in pressed && IsRealtimeAction(keys[k]) && (!mouse || !IsMove(keys[k]))
  }

  /**
   * The commands handleRealtimeInput pushes, scanning the key table in
   * key order from code `from` upwards.
   */
  function RealtimeCommands(keys: map<Key, Action>, pressed: set<Key>, mouse: bool, from: int): seq<Command>
    requires -1 <= from <= KeyCount + 1
    decreases KeyCount + 1 - from
  {
    if from > KeyCount then []
    else (if Triggers(keys, pressed, mouse, from) then [ActionCommand(keys[from])] else [])
         + RealtimeCommands(keys, pressed, mouse, from + 1)
  }

  /**
   * The scan pushes at most one command per key, each a realtime action
   * for the player's aircraft, and no move while the mouse steers.
   */
  lemma {:induction false} RealtimeCommandsShape(keys: map<Key, Action>, pressed: set<Key>, mouse: bool, from: int)
    requires -1 <= from <= KeyCount + 1
    decreases KeyCount + 1 - from
    ensures |RealtimeCommands(keys, pressed, mouse, from)| <= KeyCount + 1 - from
    ensures forall c :: c in RealtimeCommands(keys, pressed, mouse, from) ==>
              c.category == PlayerAircraft && c.work.Perform? && IsRealtimeAction(c.work.action)
    ensures mouse ==> forall c :: c in RealtimeCommands(keys, pressed, mouse, from) ==> !IsMove(c.work.action)
  {
    if from <= KeyCount {
      RealtimeCommandsShape(keys, pressed, mouse, from + 1);
    }
  }

  /** An action is pushed by the realtime scan exactly when some key triggers it. */
  lemma {:induction false} RealtimeCommandsExactly(keys: map<Key, Action>, pressed: set<Key>, mouse: bool, from: int, a: Action)
    requires -1 <= from <= KeyCount + 1
    decreases KeyCount + 1 - from
    ensures ActionCommand(a) in RealtimeCommands(keys, pressed, mouse, from) <==>
            exists k :: from <= k <= KeyCount && Triggers(keys, pressed, mouse, k) && keys[k] == a
  {
    if from <= KeyCount {
      RealtimeCommandsExactly(keys, pressed, mouse, from + 1, a);
      var head := if Triggers(keys, pressed, mouse, from) then [ActionCommand(keys[from])] else [];
      assert RealtimeCommands(keys, pressed, mouse, from) == head + RealtimeCommands(keys, pressed, mouse, from + 1);
      if Triggers(keys, pressed, mouse, from) && keys[from] == a {
        assert ActionCommand(a) in head;
      }
    }
  }

  /**
   * A key binding is served by exactly one of the two paths: a key press
   * event pushes only non-realtime actions, the realtime scan only
   * realtime ones, so no action is pushed twice for one key.
   */
  lemma KeyPathsDisjoint(keys: map<Key, Action>, buttons: map<MouseButton, Action>, mouse: bool, pressed: set<Key>, k: Key)
    requires k in keys
    ensures EventCommands(keys, buttons, mouse, KeyPressed(k)) != [] ==>
              ActionCommand(keys[k]) !in RealtimeCommands(keys, pressed, mouse, -1)
    ensures !IsRealtimeAction(keys[k]) ==> EventCommands(keys, buttons, mouse, KeyPressed(k)) != []
  {
    RealtimeCommandsShape(keys, pressed, mouse, -1);
  }

  class Player {
    var keyBinding: map<Key, Action>
    var mouseBinding: map<MouseButton, Action>
    const actionBinding: map<Action, Command>
    var missionStatus: MissionStatus
    var isMouseControlled: bool

    /** Every action has its command, and every command targets the player's aircraft. */
    ghost predicate Valid()
      reads this
    {
      forall a: Action :: a in actionBinding && actionBinding[a] == ActionCommand(a)
    }

    constructor ()
      ensures Valid()
      ensures missionStatus == MissionRunning && !isMouseControlled
      ensures keyBinding == map[Left := MoveLeft, Right := MoveRight, Up := MoveUp, Down := MoveDown,
                                Space := Fire, M := Action.LaunchMissile, E := LaunchEnergy]
      ensures mouseBinding == map[MouseLeft := SeekTarget]
      ensures forall a: Action :: a in actionBinding && actionBinding[a].category == PlayerAircraft
    {
      missionStatus := MissionRunning;
      isMouseControlled := false;
      keyBinding := map[Left := MoveLeft, Right := MoveRight, Up := MoveUp, Down := MoveDown,
                        Space := Fire, M := Action.LaunchMissile, E := LaunchEnergy];
      mouseBinding := map[MouseLeft := SeekTarget];
      actionBinding := map[MoveLeft := ActionCommand(MoveLeft), MoveRight := ActionCommand(MoveRight),
                           MoveUp := ActionCommand(MoveUp), MoveDown := ActionCommand(MoveDown),
                           SeekTarget := ActionCommand(SeekTarget), StopSeek := ActionCommand(StopSeek),
                           Fire := ActionCommand(Fire), Action.LaunchMissile := ActionCommand(Action.LaunchMissile),
                           LaunchEnergy := ActionCommand(LaunchEnergy)];
      new;
      assert forall a: Action :: a in actionBinding && actionBinding[a] == ActionCommand(a) by {
        forall a: Action ensures a in actionBinding && actionBinding[a] == ActionCommand(a) {
          match a
          case MoveLeft => case MoveRight => case MoveUp => case MoveDown => case Fire =>
          case SeekTarget => case StopSeek => case LaunchEnergy => case _ =>
        }
      }
    }

    /** A key press pushes its non-realtime action; a mouse press in mouse mode its realtime one. */
    method HandleEvent(event: Event, commands: CommandQueue)
      requires Valid()
      modifies commands
      ensures commands.items == old(commands.items) + EventCommands(keyBinding, mouseBinding, isMouseControlled, event)
    {
      if event.KeyPressed? {
        var k := event.key;
        if k in keyBinding && !IsRealtimeAction(keyBinding[k]) {
          commands.Push(actionBinding[keyBinding[k]]);
        }
      }
      if event.MouseButtonPressed? && IsMouse() {
        var b := event.button;
        if b in mouseBinding && IsRealtimeAction(mouseBinding[b]) {
          commands.Push(actionBinding[mouseBinding[b]]);
        }
      }
    }

    /** Push one command per held, bound, realtime key, in key order. */
    method HandleRealtimeInput(pressed: set<Key>, commands: CommandQueue)
      requires Valid()
      modifies commands
      ensures commands.items == old(commands.items) + RealtimeCommands(keyBinding, pressed, isMouseControlled, -1)
    {
      ghost var keys, mouse := keyBinding, isMouseControlled;
      var k: int := Unknown;
      while k <= KeyCount
        invariant -1 <= k <= KeyCount + 1
        invariant old(commands.items) + RealtimeCommands(keys, pressed, mouse, -1)
                  == commands.items + RealtimeCommands(keys, pressed, mouse, k)
      {
        ghost var before := commands.items;
        ghost var head := if Triggers(keys, pressed, mouse, k) then [ActionCommand(keys[k])] else [];
        if k in keyBinding && k in pressed && IsRealtimeAction(keyBinding[k]) {
          var a := keyBinding[k];
          if !IsMouse() {
            commands.Push(actionBinding[a]);
          } else if IsMouse() && a != MoveLeft && a != MoveRight && a != MoveUp && a != MoveDown {
            commands.Push(actionBinding[a]);
          }
        }
        assert commands.items == before + head;
        ghost var rest := RealtimeCommands(keys, pressed, mouse, k + 1);
        assert RealtimeCommands(keys, pressed, mouse, k) == head + rest;
        assert commands.items + rest == before + (head + rest);
        k := k + 1;
      }
    }

    function IsMouse(): (r: bool)
      reads this
      ensures r == isMouseControlled
    {
      isMouseControlled
    }

    method SetMouse(b: bool)
      modifies this
      ensures isMouseControlled == b
      ensures keyBinding == old(keyBinding) && mouseBinding == old(mouseBinding) && missionStatus == old(missionStatus)
    {
      isMouseControlled := b;
    }

    /** Bind `button` to `action` after erasing every other button bound to it. */
    method AssignButton(action: Action, button: MouseButton)
      requires Valid()
      modifies this
      ensures Valid()
      ensures mouseBinding == Rebind(old(mouseBinding), action, button)
      ensures button != ButtonCount ==> GetAssignedButton(action) == button
      ensures keyBinding == old(keyBinding) && missionStatus == old(missionStatus)
      ensures isMouseControlled == old(isMouseControlled)
    {
      var erased := EraseAction(mouseBinding, action, 0, ButtonCount + 1);
      mouseBinding := erased[button := action];
      if button != ButtonCount {
        LookupAfterRebind(old(mouseBinding), action, button, 0, ButtonCount + 1, ButtonCount);
      }
    }

    /** The first button in button order bound to `action`, or ButtonCount when none is. */
    function GetAssignedButton(action: Action): (r: MouseButton)
      reads this
      ensures r == ButtonCount || BoundTo(mouseBinding, r, action)
      ensures r != ButtonCount ==> forall j :: 0 <= j < r ==> !BoundTo(mouseBinding, j, action)
      ensures (forall j: MouseButton :: j < ButtonCount ==> !BoundTo(mouseBinding, j, action)) ==> r == ButtonCount
      ensures forall j: MouseButton :: j != ButtonCount && BoundTo(mouseBinding, j, action) ==>
                r <= j && BoundTo(mouseBinding, r, action)
    {
      FirstBound(mouseBinding, action, 0, ButtonCount + 1, ButtonCount)
    }

    /** Bind `key` to `action` after erasing every other key bound to it. */
    method AssignKey(action: Action, key: Key)
      requires Valid()
      modifies this
      ensures Valid()
      ensures keyBinding == Rebind(old(keyBinding), action, key)
      ensures key != Unknown ==> GetAssignedKey(action) == key
      ensures forall b :: b != action && old(GetAssignedKey(b)) != key ==> GetAssignedKey(b) == old(GetAssignedKey(b))
      ensures mouseBinding == old(mouseBinding) && missionStatus == old(missionStatus)
      ensures isMouseControlled == old(isMouseControlled)
    {
      ghost var before := keyBinding;
      var erased := EraseAction(keyBinding, action, Unknown, KeyCount + 1);
      keyBinding := erased[key := action];
      if key != Unknown {
        LookupAfterRebind(before, action, key, Unknown, KeyCount + 1, Unknown);
      }
      var hi := KeyCount + 1;
      forall b | b != action && FirstBound(before, b, Unknown, hi, Unknown) != key
        ensures FirstBound(keyBinding, b, Unknown, hi, Unknown) == FirstBound(before, b, Unknown, hi, Unknown)
      {
        LookupOtherAfterRebind(before, action, b, key, Unknown, hi, Unknown);
      }
    }

    /** The first key in key order bound to `action`, or Unknown when none is. */
    function GetAssignedKey(action: Action): (r: Key)
      reads this
      ensures r == Unknown || BoundTo(keyBinding, r, action)
      ensures r != Unknown ==> forall j :: Unknown <= j < r ==> !BoundTo(keyBinding, j, action)
      ensures (forall j: Key :: j != Unknown ==> !BoundTo(keyBinding, j, action)) ==> r == Unknown
      ensures forall j: Key :: j != Unknown && BoundTo(keyBinding, j, action) ==>
                r <= j && BoundTo(keyBinding, r, action)
    {
      FirstBound(keyBinding, action, Unknown, KeyCount + 1, Unknown)
    }

    method SetMissionStatus(status: MissionStatus)
      modifies this`missionStatus
      ensures missionStatus == status
    {
      missionStatus := status;
    }

    function GetMissionStatus(): (r: MissionStatus)
      reads this
      ensures r == missionStatus
    {
      missionStatus
    }
  }
}
