/**
 * The aircraft's gameplay state: upgrade tracks, ammunition, fire and
 * launch intents, the gun cooldown, the destroyed branch of the per-tick
 * update, the patrol-leg cursor and the seek sub-mode. Every effect on the
 * rest of the world is a command appended to the shared command queue.
 *
 * Time is sf::Time's count of microseconds; distances, speeds and screen
 * coordinates, which the game keeps in floats, are reals here.
 */
module Aircrafts {
  import opened Commands
  import opened Geometry

  datatype AircraftType = Eagle | Raptor | Avenger

  /** One patrol leg: a heading in degrees and the distance to fly on it. */
  datatype Direction = Direction(angle: real, distance: real)

  /** One row of the per-type data table (the texture column is left out). */
  datatype AircraftData = AircraftData(hitpoints: int, speed: real, fireInterval: int, directions: seq<Direction>)

  /** The read-only data table: one row for every aircraft type. */
  type Table = t: map<AircraftType, AircraftData> | Eagle in t && Raptor in t && Avenger in t
    witness map[Eagle := AircraftData(0, 0.0, 0, []), Raptor := AircraftData(0, 0.0, 0, []),
                Avenger := AircraftData(0, 0.0, 0, [])]

  const MaxFireRateLevel: int := 10
  const MaxSpreadLevel: int := 3
  const MicrosPerSecond: real := 1000000.0

  /** The seek sub-mode: a captured screen point and whether seeking is armed. */
  datatype Seek = Seek(target: Vector2i, isSeek: bool)

  /** increaseFireRate / increaseSpread: one step up while below the cap. */
  function CappedIncrement(level: int, cap: int): int {
    if level < cap then level + 1 else level
  }

  /** The level after n upgrade calls. */
  function CappedIncrements(level: int, cap: int, n: nat): int {
    if n == 0 then level else CappedIncrement(CappedIncrements(level, cap, n - 1), cap)
  }

  /** Upgrades saturate: n calls raise the level by n, but never past the cap. */
  lemma {:induction false} CappedIncrementsSaturate(level: int, cap: int, n: nat)
    requires level <= cap
    ensures CappedIncrements(level, cap, n) == if level + n <= cap then level + n else cap
  {
    if n > 0 {
      CappedIncrementsSaturate(level, cap, n - 1);
    }
  }

  /**
   * The leg that follows leg i in a pattern of n legs, wrapping to the
   * first: (i + 1) % n, written out for an index below n.
   */
  function NextLeg(i: nat, n: nat): nat
    requires i < n
  {
    if i + 1 < n then i + 1 else 0
  }

  /** The leg reached from leg i after k leg changes. */
  function NextLegs(i: nat, n: nat, k: nat): (r: nat)
    requires i < n
    ensures r < n
  {
    if k == 0 then i else NextLeg(NextLegs(i, n, k - 1), n)
  }

  /**
   * Leg changes are cyclic: k <= n changes from leg i land on leg i + k,
   * wrapped once; after n changes the aircraft is back on leg i.
   */
  lemma {:induction false} NextLegsCycle(i: nat, n: nat, k: nat)
    requires i < n && k <= n
    ensures NextLegs(i, n, k) == if i + k < n then i + k else i + k - n
  {
    if k > 0 {
      NextLegsCycle(i, n, k - 1);
    }
  }

  /** One bullet of a volley: offsets as fractions of the sprite's width and height. */
  datatype Offset = Offset(x: real, y: real)

  /**
   * createBullets: the volley fired at each spread level. The volley has
   * as many bullets as the level, is mirror-symmetric about the aircraft's
   * axis, and an odd volley has one centred bullet.
   */
  function BulletPattern(spreadLevel: int): (r: seq<Offset>)
    ensures |r| == if 1 <= spreadLevel <= MaxSpreadLevel then spreadLevel else 0
    ensures forall i :: 0 <= i < |r| ==> r[|r| - 1 - i] == Offset(-r[i].x, r[i].y)
    ensures |r| % 2 == 1 ==> r[|r| / 2] == Offset(0.0, 0.5)
    ensures forall i :: 0 <= i < |r| ==> 0.0 < r[i].y <= 0.5
  {
    match spreadLevel
    case 1 => [Offset(0.0, 0.5)]
    case 2 => [Offset(-0.33, 0.33), Offset(0.33, 0.33)]
    case 3 => [Offset(-0.5, 0.33), Offset(0.0, 0.5), Offset(0.5, 0.33)]
    case _ => []
  }

  function SoundCommand(effect: SoundEffect): Command { Command(SoundEffectSink, PlaySound(effect)) }
  function FireCommand(): Command { Command(SceneAirLayer, CreateBullets) }
  function MissileCommand(): Command { Command(SceneAirLayer, CreateMissile) }
  function EnergyCommand(): Command { Command(SceneAirLayer, CreateEnergyBall) }
  function DropPickupCommand(): Command { Command(SceneAirLayer, CreatePickup) }

  /** The gun goes off when there is an intent to fire and the countdown has expired. */
  predicate GunReady(intent: bool, countdown: int) {
    intent && countdown <= 0
  }

  /** The countdown after the gun branch of checkProjectileLaunch. */
  function NextCountdown(intent: bool, countdown: int, interval: int, fireRateLevel: int, dt: int): int
    requires fireRateLevel >= 1
  {
    if GunReady(intent, countdown) then countdown + interval / (fireRateLevel + 1)
    else if countdown > 0 then countdown - dt
    else countdown
  }

  /** The volley and its gunfire cue, when the gun goes off. */
  function GunCommands(gun: bool, allied: bool): seq<Command> {
    if gun then [FireCommand(), SoundCommand(if allied then AlliedGunfire else EnemyGunfire)] else []
  }

  /** A requested missile and its launch cue. */
  function MissileCommands(missile: bool): seq<Command> {
    if missile then [MissileCommand(), SoundCommand(SoundEffect.LaunchMissile)] else []
  }

  /** A requested energy ball, which reuses the missile's launch cue. */
  function EnergyCommands(energy: bool): seq<Command> {
    if energy then [EnergyCommand(), SoundCommand(SoundEffect.LaunchMissile)] else []
  }

  /**
   * The commands one launch check appends: the volley with its gunfire cue
   * when the gun goes off, then a missile and an energy ball with their
   * launch cues when those were requested.
   */
  function LaunchCommands(gun: bool, allied: bool, missile: bool, energy: bool): seq<Command> {
    GunCommands(gun, allied) + (MissileCommands(missile) + EnergyCommands(energy))
  }

  /**
   * What a launch check queues: one volley with its cue exactly when the
   * gun goes off, one missile and one energy ball exactly when requested,
   * and never a pickup.
   */
  lemma LaunchCommandsContents(gun: bool, allied: bool, missile: bool, energy: bool)
    ensures var r := LaunchCommands(gun, allied, missile, energy);
            && |r| == (if gun then 2 else 0) + (if missile then 2 else 0) + (if energy then 2 else 0)
            && (FireCommand() in r <==> gun) && (MissileCommand() in r <==> missile) && (EnergyCommand() in r <==> energy)
            && (gun ==> r[1] == SoundCommand(if allied then AlliedGunfire else EnemyGunfire))
            && DropPickupCommand() !in r
  {
  }

  lemma AppendAssociative(a: seq<Command>, b: seq<Command>, c: seq<Command>, d: seq<Command>)
    ensures ((a + b) + c) + d == a + (b + (c + d))
  {
  }

  /** The radius of the seek capture square (mSeekRadius). */
  const SeekRadius: real := 20.0

  /**
   * checkSeekBounds: the capture zone is the half-open square of side
   * SeekRadius whose top edge lies on the target and which is centred on
   * it horizontally.
   */
  predicate CheckSeekBounds(pos: Vector2f, targetPos: Vector2f)
    ensures CheckSeekBounds(pos, targetPos) <==>
              targetPos.x - 10.0 <= pos.x < targetPos.x + 10.0 && targetPos.y <= pos.y < targetPos.y + 20.0
  {
    RectContains(FloatRect(targetPos.x - SeekRadius / 2.0, targetPos.y, SeekRadius, SeekRadius), pos)
  }

  class Aircraft {
    const kind: AircraftType
    const table: Table
    var hitpoints: int                 // Entity's hitpoints
    var fireCountdown: int             // microseconds
    var isFiring: bool
    var isLaunchingMissile: bool
    var isLaunchingEnergy: bool
    var isMarkedForRemoval: bool
    var playedExplosionSound: bool
    var fireRateLevel: int
    var spreadLevel: int
    var missileAmmo: int
    var energy: int
    var travelledDistance: real
    var directionIndex: nat
    var seek: Seek
    /** How many explosion cues this aircraft has ever queued. */
    ghost var explosionSounds: nat

    ghost predicate Valid()
      reads this
    {
      && 1 <= fireRateLevel <= MaxFireRateLevel
      && 1 <= spreadLevel <= MaxSpreadLevel
      && missileAmmo >= 0
      && energy >= 0
      && (if |Data().directions| > 0 then directionIndex < |Data().directions| else directionIndex == 0)
      && explosionSounds == (if playedExplosionSound then 1 else 0)
    }

    constructor (kind: AircraftType, table: Table)
      ensures Valid()
      ensures this.kind == kind && this.table == table
      ensures hitpoints == table[kind].hitpoints
      ensures fireCountdown == 0 && !isFiring && !isLaunchingMissile && !isLaunchingEnergy
      ensures !isMarkedForRemoval && !playedExplosionSound
      ensures fireRateLevel == 1 && spreadLevel == 1 && missileAmmo == 2 && energy == 20
      ensures travelledDistance == 0.0 && directionIndex == 0
      ensures seek == Seek(Vector2i(0, 0), false)
    {
      this.kind := kind;
      this.table := table;
      hitpoints := table[kind].hitpoints;
      fireCountdown := 0;
      isFiring := false;
      isLaunchingMissile := false;
      isLaunchingEnergy := false;
      isMarkedForRemoval := false;
      playedExplosionSound := false;
      fireRateLevel := 1;
      spreadLevel := 1;
      missileAmmo := 2;
      energy := 20;
      travelledDistance := 0.0;
      directionIndex := 0;
      seek := Seek(Vector2i(0, 0), false);
      explosionSounds := 0;
    }

    /** This aircraft's row of the data table. */
    function Data(): AircraftData {
      assert kind.Eagle? || kind.Raptor? || kind.Avenger?;
      table[kind]
    }

    /** Only the Eagle, the player's type, is allied. */
    predicate IsAllied()
      ensures IsAllied() <==> kind == Eagle
    {
      kind == Eagle
    }

    function GetCategory(): (r: Category)
      ensures r == PlayerAircraft <==> IsAllied()
      ensures r == EnemyAircraft <==> !IsAllied()
    {
      if IsAllied() then PlayerAircraft else EnemyAircraft
    }

    function GetMaxSpeed(): real {
      Data().speed
    }

    /** Entity::isDestroyed. */
    predicate IsDestroyed()
      reads this
    {
      hitpoints <= 0
    }

    method IncreaseFireRate()
      requires Valid()
      modifies this`fireRateLevel
      ensures Valid()
      ensures fireRateLevel == CappedIncrement(old(fireRateLevel), MaxFireRateLevel)
    {
      if fireRateLevel < 10 {
        fireRateLevel := fireRateLevel + 1;
      }
    }

    method IncreaseSpread()
      requires Valid()
      modifies this`spreadLevel
      ensures Valid()
      ensures spreadLevel == CappedIncrement(old(spreadLevel), MaxSpreadLevel)
    {
      if spreadLevel < 3 {
        spreadLevel := spreadLevel + 1;
      }
    }

    method CollectMissiles(count: nat)
      requires Valid()
      modifies this`missileAmmo
      ensures Valid()
      ensures missileAmmo == old(missileAmmo) + count
    {
      missileAmmo := missileAmmo + count;
    }

    method CollectEnergy(count: nat)
      requires Valid()
      modifies this`energy
      ensures Valid()
      ensures energy == old(energy) + count
    {
      energy := energy + count;
    }

    /** Only types with a non-zero fire interval may fire. */
    method Fire()
      modifies this`isFiring
      ensures isFiring == (old(isFiring) || Data().fireInterval != 0)
    {
      if Data().fireInterval != 0 {
        isFiring := true;
      }
    }

    /** The missile is paid for when requested, not when it leaves. */
    method LaunchMissile()
      requires Valid()
      modifies this`isLaunchingMissile, this`missileAmmo
      ensures Valid()
      ensures old(missileAmmo) > 0 ==> isLaunchingMissile && missileAmmo == old(missileAmmo) - 1
      ensures old(missileAmmo) == 0 ==> isLaunchingMissile == old(isLaunchingMissile) && missileAmmo == 0
    {
      if missileAmmo > 0 {
        isLaunchingMissile := true;
        missileAmmo := missileAmmo - 1;
      }
    }

    /** The energy ball is paid for when requested, not when it leaves. */
    method LaunchEnergy()
      requires Valid()
      modifies this`isLaunchingEnergy, this`energy
      ensures Valid()
      ensures old(energy) > 0 ==> isLaunchingEnergy && energy == old(energy) - 1
      ensures old(energy) == 0 ==> isLaunchingEnergy == old(isLaunchingEnergy) && energy == 0
    {
      if energy > 0 {
        isLaunchingEnergy := true;
        energy := energy - 1;
      }
    }

    /**
     * checkProjectileLaunch: enemies always want to fire; the gun goes off
     * only when the countdown has expired, otherwise the countdown runs
     * down; requested missiles and energy balls leave regardless of the gun.
     * Every intent is cleared afterwards.
     */
    method CheckProjectileLaunch(dt: int, commands: CommandQueue)
      requires Valid()
      modifies this`isFiring, this`fireCountdown, this`isLaunchingMissile, this`isLaunchingEnergy, commands
      ensures Valid()
      ensures !isFiring && !isLaunchingMissile && !isLaunchingEnergy
      ensures var intent := old(isFiring) || (!IsAllied() && Data().fireInterval != 0);
              && fireCountdown == NextCountdown(intent, old(fireCountdown), Data().fireInterval, fireRateLevel, dt)
              && commands.items == old(commands.items)
                   + LaunchCommands(GunReady(intent, old(fireCountdown)), IsAllied(),
                                    old(isLaunchingMissile), old(isLaunchingEnergy))
    {
      ghost var start := commands.items;
      if !IsAllied() {
        Fire();
      }
      ghost var gunPart := ServiceGun(dt, commands);
      ghost var rest := ServiceLaunches(commands);
      AppendAssociative(start, gunPart, MissileCommands(old(isLaunchingMissile)), EnergyCommands(old(isLaunchingEnergy)));
    }

    /** The gun part of checkProjectileLaunch, once the intent is settled. */
    method ServiceGun(dt: int, commands: CommandQueue) returns (ghost part: seq<Command>)
      requires Valid()
      modifies this`isFiring, this`fireCountdown, commands
      ensures Valid() && !isFiring
      ensures part == GunCommands(GunReady(old(isFiring), old(fireCountdown)), IsAllied())
      ensures fireCountdown == NextCountdown(old(isFiring), old(fireCountdown), Data().fireInterval, fireRateLevel, dt)
      ensures commands.items == old(commands.items) + part
    {
      part := GunCommands(GunReady(isFiring, fireCountdown), IsAllied());
      if isFiring && fireCountdown <= 0 {
        commands.Push(FireCommand());
        commands.Push(SoundCommand(if IsAllied() then AlliedGunfire else EnemyGunfire));
        fireCountdown := fireCountdown + Data().fireInterval / (fireRateLevel + 1);
        isFiring := false;
      } else if fireCountdown > 0 {
        fireCountdown := fireCountdown - dt;
        isFiring := false;
      }
    }

    /** The missile and energy-ball part of checkProjectileLaunch. */
    method ServiceLaunches(commands: CommandQueue) returns (ghost missilePart: seq<Command>)
      requires Valid()
      modifies this`isLaunchingMissile, this`isLaunchingEnergy, commands
      ensures Valid() && !isLaunchingMissile && !isLaunchingEnergy
      ensures missilePart == MissileCommands(old(isLaunchingMissile))
      ensures commands.items == old(commands.items) + missilePart + EnergyCommands(old(isLaunchingEnergy))
    {
      missilePart := MissileCommands(isLaunchingMissile);
      if isLaunchingMissile {
        commands.Push(MissileCommand());
        commands.Push(SoundCommand(SoundEffect.LaunchMissile));
        isLaunchingMissile := false;
      }
      if isLaunchingEnergy {
        commands.Push(EnergyCommand());
        commands.Push(SoundCommand(SoundEffect.LaunchMissile));
        isLaunchingEnergy := false;
      }
    }

    /**
     * updateMovementPattern, cursor part: once the distance flown on the
     * current leg exceeds its length, move to the next leg and start
     * counting again; then add this tick's distance at full speed.
     */
    method UpdateMovementPattern(dt: int)
      requires Valid()
      modifies this`directionIndex, this`travelledDistance
      ensures Valid()
      ensures var dirs := Data().directions;
              if |dirs| == 0 then
                directionIndex == old(directionIndex) && travelledDistance == old(travelledDistance)
              else
                var advance := old(travelledDistance) > dirs[old(directionIndex)].distance;
                && directionIndex == (if advance then NextLeg(old(directionIndex), |dirs|) else old(directionIndex))
                && travelledDistance == (if advance then 0.0 else old(travelledDistance))
                                        + GetMaxSpeed() * (dt as real) / MicrosPerSecond
    {
      var directions := Data().directions;
      if |directions| > 0 {
        if travelledDistance > directions[directionIndex].distance {
          directionIndex := NextLeg(directionIndex, |directions|);
          travelledDistance := 0.0;
        }
        travelledDistance := travelledDistance + GetMaxSpeed() * (dt as real) / MicrosPerSecond;
      }
    }

    /** checkPickupDrop: an enemy drops a pickup when the roll (of three) is zero. */
    method CheckPickupDrop(commands: CommandQueue, roll: int)
      modifies commands
      ensures commands.items == old(commands.items) + (if !IsAllied() && roll == 0 then [DropPickupCommand()] else [])
    {
      if !IsAllied() && roll == 0 {
        commands.Push(DropPickupCommand());
      }
    }

    /**
     * updateCurrent. A destroyed aircraft may drop a pickup, queues its
     * explosion cue the first time only, is marked for removal and does
     * nothing else; a live one checks its weapons and then its patrol.
     * The random draws are the rolls `dropRoll` (of three) and
     * `explosionRoll` (of two).
     */
    method UpdateCurrent(dt: int, commands: CommandQueue, dropRoll: int, explosionRoll: int)
      requires Valid()
      requires 0 <= dropRoll < 3 && 0 <= explosionRoll < 2
      modifies this, commands
      ensures Valid()
      ensures explosionSounds <= 1
      ensures hitpoints == old(hitpoints) && seek == old(seek)
      ensures fireRateLevel == old(fireRateLevel) && spreadLevel == old(spreadLevel)
      ensures missileAmmo == old(missileAmmo) && energy == old(energy)
      ensures old(IsDestroyed()) ==>
                && isMarkedForRemoval && playedExplosionSound
                && commands.items == old(commands.items)
                     + (if !IsAllied() && dropRoll == 0 then [DropPickupCommand()] else [])
                     + (if old(playedExplosionSound) then []
                        else [SoundCommand(if explosionRoll == 0 then Explosion1 else Explosion2)])
                && fireCountdown == old(fireCountdown) && isFiring == old(isFiring)
                && isLaunchingMissile == old(isLaunchingMissile) && isLaunchingEnergy == old(isLaunchingEnergy)
                && directionIndex == old(directionIndex) && travelledDistance == old(travelledDistance)
      ensures !old(IsDestroyed()) ==>
                && isMarkedForRemoval == old(isMarkedForRemoval)
                && playedExplosionSound == old(playedExplosionSound)
                && !isFiring && !isLaunchingMissile && !isLaunchingEnergy
                && var intent := old(isFiring) || (!IsAllied() && Data().fireInterval != 0);
                   && fireCountdown == NextCountdown(intent, old(fireCountdown), Data().fireInterval, fireRateLevel, dt)
                   && commands.items == old(commands.items)
                        + LaunchCommands(GunReady(intent, old(fireCountdown)), IsAllied(),
                                         old(isLaunchingMissile), old(isLaunchingEnergy))
      ensures !old(IsDestroyed()) ==>
                var dirs := Data().directions;
                if |dirs| == 0 then
                  directionIndex == old(directionIndex) && travelledDistance == old(travelledDistance)
                else
                  var advance := old(travelledDistance) > dirs[old(directionIndex)].distance;
                  && directionIndex == (if advance then NextLeg(old(directionIndex), |dirs|) else old(directionIndex))
                  && travelledDistance == (if advance then 0.0 else old(travelledDistance))
                                          + GetMaxSpeed() * (dt as real) / MicrosPerSecond
    {
      if IsDestroyed() {
        CheckPickupDrop(commands, dropRoll);
        if !playedExplosionSound {
          var effect := if explosionRoll == 0 then Explosion1 else Explosion2;
          commands.Push(SoundCommand(effect));
          playedExplosionSound := true;
          explosionSounds := explosionSounds + 1;
        }
        isMarkedForRemoval := true;
        return;
      }

      CheckProjectileLaunch(dt, commands);
      UpdateMovementPattern(dt);
    }

    /** setSeek: arm seeking towards the mouse position (sampled by the caller). */
    method SetSeek(mouse: Vector2i)
      modifies this`seek
      ensures seek == Seek(mouse, true)
    {
      seek := Seek(mouse, true);
    }

    /** seekTarget: seeking disarms once the position enters the capture zone. */
    method SeekTarget(pos: Vector2f, targetPos: Vector2f)
      modifies this`seek
      ensures seek == if CheckSeekBounds(pos, targetPos) then Seek(Vector2i(0, 0), false) else old(seek)
    {
      if CheckSeekBounds(pos, targetPos) {
        StopSeek();
      }
    }

    /** stopSeek: disarm and forget the target. */
    method StopSeek()
      modifies this`seek
      ensures seek == Seek(Vector2i(0, 0), false)
    {
      seek := Seek(Vector2i(0, 0), false);
    }

    function IsSeek(): (r: bool)
      reads this
      ensures r == seek.isSeek
    {
      seek.isSeek
    }

    function GetTarget(): (r: Vector2i)
      reads this
      ensures r == seek.target
    {
      seek.target
    }
  }

  /** Whether a command is an explosion cue. */
  predicate IsExplosionCue(c: Command) {
    c == SoundCommand(Explosion1) || c == SoundCommand(Explosion2)
  }

  /** The number of explosion cues in a run of commands. */
  function ExplosionCues(s: seq<Command>): nat {
    if s == [] then 0 else ExplosionCues(s[..|s| - 1]) + (if IsExplosionCue(s[|s| - 1]) then 1 else 0)
  }

  /** Counting explosion cues distributes over concatenation. */
  lemma {:induction false} ExplosionCuesAppend(a: seq<Command>, b: seq<Command>)
    ensures ExplosionCues(a + b) == ExplosionCues(a) + ExplosionCues(b)
  {
    if b != [] {
      assert (a + b)[..|a + b| - 1] == a + b[..|b| - 1];
      ExplosionCuesAppend(a, b[..|b| - 1]);
    } else {
      assert a + b == a;
    }
  }

  /**
   * Ticks spent destroyed: however many updates a destroyed aircraft gets
   * before it is removed, and whatever the random draws, it queues its
   * explosion cue exactly once over its lifetime.
   */
  method UpdateWhileDestroyed(a: Aircraft, commands: CommandQueue, dt: int, dropRolls: seq<int>, explosionRolls: seq<int>)
    requires a.Valid() && a.IsDestroyed()
    requires |dropRolls| == |explosionRolls| > 0
    requires forall i :: 0 <= i < |dropRolls| ==> 0 <= dropRolls[i] < 3
    requires forall i :: 0 <= i < |explosionRolls| ==> 0 <= explosionRolls[i] < 2
    modifies a, commands
    ensures a.Valid() && a.isMarkedForRemoval && a.playedExplosionSound
    ensures old(commands.items) <= commands.items
    ensures ExplosionCues(commands.items) == ExplosionCues(old(commands.items)) + if old(a.playedExplosionSound) then 0 else 1
  {
    ghost var played := a.playedExplosionSound;
    ghost var start := commands.items;
    DestroyedTick(a, commands, dt, dropRolls[0], explosionRolls[0]);
    var t := 1;
    while t < |dropRolls|
      invariant 1 <= t <= |dropRolls|
      invariant a.Valid() && a.IsDestroyed() && a.isMarkedForRemoval && a.playedExplosionSound
      invariant start <= commands.items
      invariant ExplosionCues(commands.items) == ExplosionCues(start) + if played then 0 else 1
    {
      DestroyedTick(a, commands, dt, dropRolls[t], explosionRolls[t]);
      t := t + 1;
    }
  }

  /** One update of a destroyed aircraft, counted in explosion cues. */
  method DestroyedTick(a: Aircraft, commands: CommandQueue, dt: int, dropRoll: int, explosionRoll: int)
    requires a.Valid() && a.IsDestroyed()
    requires 0 <= dropRoll < 3 && 0 <= explosionRoll < 2
    modifies a, commands
    ensures a.Valid() && a.IsDestroyed() && a.isMarkedForRemoval && a.playedExplosionSound
    ensures old(commands.items) <= commands.items
    ensures ExplosionCues(commands.items) == ExplosionCues(old(commands.items)) + if old(a.playedExplosionSound) then 0 else 1
  {
    ghost var start := commands.items;
    ghost var played := a.playedExplosionSound;
    a.UpdateCurrent(dt, commands, dropRoll, explosionRoll);
    ghost var drop := if !a.IsAllied() && dropRoll == 0 then [DropPickupCommand()] else [];
    ghost var cue := if played then [] else [SoundCommand(if explosionRoll == 0 then Explosion1 else Explosion2)];
    assert commands.items == start + drop + cue;
    ExplosionCuesAppend(start, drop);
    ExplosionCuesAppend(start + drop, cue);
  }
}
