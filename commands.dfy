/**
 * Commands and the command queue. A command is a target category plus a
 * unit of work; the work is kept as an abstract tag naming what the
 * closure would do when the world applies it to the matching nodes.
 */
module Commands {

  /** Category bits a command can target (only those the core uses). */
  datatype Category = SceneAirLayer | PlayerAircraft | EnemyAircraft | SoundEffectSink

  /** SoundEffect::ID. */
  datatype SoundEffect =
    AlliedGunfire | EnemyGunfire | Explosion1 | Explosion2 | LaunchMissile | CollectPickup | Button

  /**
   * Player::Action as Player.cpp uses it: the header's enum lacks
   * LaunchEnergy and StopSeek, which the bindings refer to.
   */
  datatype Action =
    MoveLeft | MoveRight | MoveUp | MoveDown | Fire | LaunchMissile | SeekTarget | StopSeek | LaunchEnergy

  /** What a queued command does once applied. */
  datatype Work =
    | CreateBullets                    // Aircraft::createBullets
    | CreateMissile                    // createProjectile(Missile)
    | CreateEnergyBall                 // createProjectile(EnergyBall)
    | CreatePickup                     // Aircraft::createPickup
    | PlaySound(effect: SoundEffect)   // SoundNode::playSound at the aircraft's position
    | Perform(action: Action)          // the aircraft method bound to a player action

  datatype Command = Command(category: Category, work: Work)

  /** The FIFO buffer producers push onto during a tick; only pushes are modelled. */
  class CommandQueue {
    var items: seq<Command>

    constructor ()
      ensures items == []
    {
      items := [];
    }

    method Push(c: Command)
      modifies this
      ensures items == old(items) + [c]
    {
      items := items + [c];
    }
  }
}
