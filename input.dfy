/**
 * Device identifiers and window events as the game's input code sees them.
 * Keys and mouse buttons carry SFML 2's enumeration values, because the
 * binding tables are ordered maps keyed by them: their numeric order is
 * the order in which realtime input is scanned and bindings are looked up.
 */
module Input {

  /** sf::Keyboard::Key, from Unknown (-1) up to and including KeyCount. */
  const KeyCount: int := 101
  type Key = k: int | -1 <= k <= KeyCount

  const Unknown: Key := -1
  const E: Key := 4
  const M: Key := 12
  const S: Key := 18
  const W: Key := 22
  const Escape: Key := 36
  const Space: Key := 57
  const Return: Key := 58
  const Left: Key := 71
  const Right: Key := 72
  const Up: Key := 73
  const Down: Key := 74

  /** sf::Mouse::Button, from Left (0) up to and including ButtonCount. */
  const ButtonCount: int := 5
  type MouseButton = b: int | 0 <= b <= ButtonCount

  const MouseLeft: MouseButton := 0

  /** The sf::Event kinds the core reacts to; everything else is OtherEvent. */
  datatype Event =
    | KeyPressed(key: Key)
    | KeyReleased(key: Key)
    | MouseButtonPressed(button: MouseButton)
    | JoystickMoved
    | JoystickButtonPressed
    | OtherEvent
}
