/**
 * The menu widgets: a Button with its toggle / hide / texture state
 * machine, and a Container holding buttons with at most one selected,
 * moved by keyboard, mouse and joystick stick with wrap-around search.
 *
 * The Component base class is not part of this model; its select,
 * deselect, activate and deactivate are taken to set the isSelected and
 * isActive flags the base class keeps. Device reads (the mouse position,
 * the joystick's vertical axis and its first button) are parameters.
 */
module Gui {
  import opened Input
  import opened Commands
  import opened Geometry

  /** The three button textures; which one the sprite shows. */
  datatype ButtonTexture = NormalTexture | SelectedTexture | PressedTexture

  /** The sprite's alpha while hidden and while shown. */
  const HiddenAlpha: int := 100
  const OpaqueAlpha: int := 255

  /** How far the stick must be deflected before it moves the selection. */
  const StickSensitivity: real := 0.25

  function Abs(x: real): real { if x < 0.0 then -x else x }

  // ---------------------------------------------------------------------
  // Cyclic search over the children's hidden flags
  // ---------------------------------------------------------------------

  /** (i + 1) % n, written out for an index i below n. */
  function Succ(i: nat, n: nat): nat
    requires i < n
  {
    if i + 1 < n then i + 1 else 0
  }

  /** (i + n - 1) % n, written out for an index i below n. */
  function Pred(i: nat, n: nat): nat
    requires i < n
  {
    if i > 0 then i - 1 else n - 1
  }

  /** How many forward steps lead from index `from` to index `to`, in 1..n. */
  function Gap(from: int, to: int, n: int): int {
    if from < to then to - from else to + n - from
  }

  /** How many backward steps lead from index `from` to index `to`, in 1..n. */
  function BackGap(from: int, to: int, n: int): int {
    if to < from then from - to else from + n - to
  }

  /** The index d forward steps after cur, wrapping. */
  function Ahead(cur: nat, d: nat, n: nat): (r: nat)
    requires cur < n && 1 <= d <= n
    ensures r < n && Gap(cur, r, n) == d
  {
    if cur + d < n then cur + d else cur + d - n
  }

  /** The index d backward steps before cur, wrapping. */
  function Behind(cur: nat, d: nat, n: nat): (r: nat)
    requires cur < n && 1 <= d <= n
    ensures r < n && BackGap(cur, r, n) == d
  {
    if d <= cur then cur - d else cur + n - d
  }

  /** Some shown child lies at least d forward steps after cur. */
  predicate ShownAhead(hidden: seq<bool>, cur: nat, d: nat) {
    exists k :: 0 <= k < |hidden| && !hidden[k] && d <= Gap(cur, k, |hidden|)
  }

  /** Some shown child lies at least d backward steps before cur. */
  predicate ShownBehind(hidden: seq<bool>, cur: nat, d: nat) {
    exists k :: 0 <= k < |hidden| && !hidden[k] && d <= BackGap(cur, k, |hidden|)
  }

  /**
   * The target of selectNext's search, from the d-th step on: step
   * forwards from cur, wrapping round, until a shown child is reached.
   */
  function ScanForward(hidden: seq<bool>, cur: nat, d: nat): (r: nat)
    requires cur < |hidden| && 1 <= d <= |hidden| && ShownAhead(hidden, cur, d)
    ensures r < |hidden| && !hidden[r]
    decreases |hidden| - d
  {
    var j := Ahead(cur, d, |hidden|);
    if !hidden[j] then j
    else
      ShownAheadNext(hidden, cur, d);
      ScanForward(hidden, cur, d + 1)
  }

  /** The mirror image of ScanForward: step backwards until a shown child is reached. */
  function ScanBackward(hidden: seq<bool>, cur: nat, d: nat): (r: nat)
    requires cur < |hidden| && 1 <= d <= |hidden| && ShownBehind(hidden, cur, d)
    ensures r < |hidden| && !hidden[r]
    decreases |hidden| - d
  {
    var j := Behind(cur, d, |hidden|);
    if !hidden[j] then j
    else
      ShownBehindNext(hidden, cur, d);
      ScanBackward(hidden, cur, d + 1)
  }

  /** When the d-th step forward lands on a hidden child, the search goes on. */
  lemma ShownAheadNext(hidden: seq<bool>, cur: nat, d: nat)
    requires cur < |hidden| && 1 <= d <= |hidden| && ShownAhead(hidden, cur, d)
    requires hidden[Ahead(cur, d, |hidden|)]
    ensures d < |hidden| && ShownAhead(hidden, cur, d + 1)
  {
    var k :| 0 <= k < |hidden| && !hidden[k] && d <= Gap(cur, k, |hidden|);
    assert k != Ahead(cur, d, |hidden|);
  }

  /** When the d-th step back lands on a hidden child, the search goes on. */
  lemma ShownBehindNext(hidden: seq<bool>, cur: nat, d: nat)
    requires cur < |hidden| && 1 <= d <= |hidden| && ShownBehind(hidden, cur, d)
    requires hidden[Behind(cur, d, |hidden|)]
    ensures d < |hidden| && ShownBehind(hidden, cur, d + 1)
  {
    var k :| 0 <= k < |hidden| && !hidden[k] && d <= BackGap(cur, k, |hidden|);
    assert k != Behind(cur, d, |hidden|);
  }

  /**
   * selectNext lands on the nearest shown child after cur, wrapping round:
   * no shown child is fewer steps away. cur itself is n steps away, so it
   * is the answer exactly when it is the only shown child.
   */
  lemma {:induction false} ScanForwardNearest(hidden: seq<bool>, cur: nat, d: nat, k: nat)
    requires cur < |hidden| && 1 <= d <= |hidden| && ShownAhead(hidden, cur, d)
    requires k < |hidden| && !hidden[k] && d <= Gap(cur, k, |hidden|)
    ensures d <= Gap(cur, ScanForward(hidden, cur, d), |hidden|) <= Gap(cur, k, |hidden|)
    decreases |hidden| - d
  {
    var j := Ahead(cur, d, |hidden|);
    if hidden[j] {
      assert k != j;
      ShownAheadNext(hidden, cur, d);
      ScanForwardNearest(hidden, cur, d + 1, k);
    }
  }

  /** selectPrevious lands on the nearest shown child before cur, wrapping round. */
  lemma {:induction false} ScanBackwardNearest(hidden: seq<bool>, cur: nat, d: nat, k: nat)
    requires cur < |hidden| && 1 <= d <= |hidden| && ShownBehind(hidden, cur, d)
    requires k < |hidden| && !hidden[k] && d <= BackGap(cur, k, |hidden|)
    ensures d <= BackGap(cur, ScanBackward(hidden, cur, d), |hidden|) <= BackGap(cur, k, |hidden|)
    decreases |hidden| - d
  {
    var j := Behind(cur, d, |hidden|);
    if hidden[j] {
      assert k != j;
      ShownBehindNext(hidden, cur, d);
      ScanBackwardNearest(hidden, cur, d + 1, k);
    }
  }

  /** Any shown child is at least one step away, so the whole search can start. */
  lemma ShownFromStart(hidden: seq<bool>, cur: nat)
    requires cur < |hidden| && false in hidden
    ensures ShownAhead(hidden, cur, 1) && ShownBehind(hidden, cur, 1)
  {
    var k :| 0 <= k < |hidden| && !hidden[k];
    assert 1 <= Gap(cur, k, |hidden|) && 1 <= BackGap(cur, k, |hidden|);
  }

  /**
   * A search that has come all the way round (n steps) and can still find
   * a shown child ends on its starting index, which is then shown.
   */
  lemma LapEndsOnShown(hidden: seq<bool>, cur: nat, d: nat)
    requires cur < |hidden| && 1 <= d <= |hidden|
    requires Ahead(cur, d, |hidden|) == cur || Behind(cur, d, |hidden|) == cur
    ensures d == |hidden|
    ensures ShownAhead(hidden, cur, d) || ShownBehind(hidden, cur, d) ==> !hidden[cur]
  {
    if ShownAhead(hidden, cur, d) {
      var k :| 0 <= k < |hidden| && !hidden[k] && d <= Gap(cur, k, |hidden|);
      assert k == cur;
    }
    if ShownBehind(hidden, cur, d) {
      var k :| 0 <= k < |hidden| && !hidden[k] && d <= BackGap(cur, k, |hidden|);
      assert k == cur;
    }
  }

  /** The flags read back to front. */
  function Reverse(s: seq<bool>): (r: seq<bool>)
    ensures |r| == |s| && forall i :: 0 <= i < |s| ==> r[i] == s[|s| - 1 - i]
  {
    seq(|s|, i requires 0 <= i < |s| => s[|s| - 1 - i])
  }

  /**
   * selectPrevious is the mirror image of selectNext: searching backwards
   * from cur finds the mirror of what searching forwards finds from the
   * mirrored index in the reversed list.
   */
  lemma {:induction false} ScanBackwardMirrors(hidden: seq<bool>, cur: nat, d: nat)
    requires cur < |hidden| && 1 <= d <= |hidden| && ShownBehind(hidden, cur, d)
    ensures ShownAhead(Reverse(hidden), |hidden| - 1 - cur, d)
    ensures ScanBackward(hidden, cur, d) == |hidden| - 1 - ScanForward(Reverse(hidden), |hidden| - 1 - cur, d)
    decreases |hidden| - d
  {
    MirrorShown(hidden, cur, d);
    MirrorStep(hidden, cur, d);
    if hidden[Behind(cur, d, |hidden|)] {
      ScanBackwardMirrors(hidden, cur, d + 1);
    }
  }

  /** One step of both searches: they agree on what the d-th step finds. */
  lemma MirrorStep(hidden: seq<bool>, cur: nat, d: nat)
    requires cur < |hidden| && 1 <= d <= |hidden| && ShownBehind(hidden, cur, d)
    requires ShownAhead(Reverse(hidden), |hidden| - 1 - cur, d)
    ensures var j := Behind(cur, d, |hidden|);
            if hidden[j] then
              && ShownBehind(hidden, cur, d + 1)
              && ShownAhead(Reverse(hidden), |hidden| - 1 - cur, d + 1)
              && ScanBackward(hidden, cur, d) == ScanBackward(hidden, cur, d + 1)
              && ScanForward(Reverse(hidden), |hidden| - 1 - cur, d) == ScanForward(Reverse(hidden), |hidden| - 1 - cur, d + 1)
            else
              && ScanBackward(hidden, cur, d) == j
              && ScanForward(Reverse(hidden), |hidden| - 1 - cur, d) == |hidden| - 1 - j
  {
    var n := |hidden|;
    var rev := Reverse(hidden);
    var m := n - 1 - cur;
    var j := Behind(cur, d, n);
    assert Ahead(m, d, n) == n - 1 - j;
    assert rev[n - 1 - j] == hidden[j];
    if hidden[j] {
      ShownBehindNext(hidden, cur, d);
      MirrorShown(hidden, cur, d + 1);
    }
  }

  /** A shown child before cur is a shown child after the mirrored index. */
  lemma MirrorShown(hidden: seq<bool>, cur: nat, d: nat)
    requires cur < |hidden| && ShownBehind(hidden, cur, d)
    ensures ShownAhead(Reverse(hidden), |hidden| - 1 - cur, d)
  {
    var n := |hidden|;
    var k :| 0 <= k < n && !hidden[k] && d <= BackGap(cur, k, n);
    MirrorGap(cur, k, n);
    assert Reverse(hidden)[n - 1 - k] == hidden[k];
  }

  /** Mirroring both ends turns a backward distance into a forward one. */
  lemma MirrorGap(cur: nat, k: nat, n: nat)
    requires cur < n && k < n
    ensures Gap(n - 1 - cur, n - 1 - k, n) == BackGap(cur, k, n)
  {
  }

  /** The first index whose flag is set, or -1 when none is. */
  function FirstTrue(s: seq<bool>): (r: int)
    ensures -1 <= r < |s|
    ensures r >= 0 ==> s[r] && forall j :: 0 <= j < r ==> !s[j]
    ensures r < 0 ==> forall j :: 0 <= j < |s| ==> !s[j]
  {
    if s == [] then -1
    else if s[0] then 0
    else
      var t := FirstTrue(s[1..]);
      if t < 0 then -1 else t + 1
  }

  // ---------------------------------------------------------------------
  // Button
  // ---------------------------------------------------------------------

  /**
   * GUI::Button. isSelected and isActive are the Component base's flags;
   * the callback is recorded by whether one is set and how often it ran,
   * and the button's sound player by the cues it was asked to play.
   */
  class Button {
    var isSelected: bool
    var isActive: bool
    var isToggle: bool
    var isHiding: bool
    var texture: ButtonTexture
    var alpha: int
    var hasCallback: bool
    var callbackRuns: nat
    var sounds: seq<SoundEffect>
    /** The sf::Transformable position the owning screen gives it. */
    var position: Vector2f
    /** The sprite's local bounds: the normal texture's size. */
    const width: real
    const height: real

    constructor (width: real, height: real)
      ensures this.width == width && this.height == height
      ensures !isSelected && !isActive && !isToggle && !isHiding
      ensures texture == NormalTexture && alpha == OpaqueAlpha
      ensures !hasCallback && callbackRuns == 0 && sounds == []
      ensures position == Vector2f(0.0, 0.0)
    {
      this.width := width;
      this.height := height;
      isSelected := false;
      isActive := false;
      isToggle := false;
      isHiding := false;
      texture := NormalTexture;
      alpha := OpaqueAlpha;
      hasCallback := false;
      callbackRuns := 0;
      sounds := [];
      position := Vector2f(0.0, 0.0);
    }

    method SetCallback()
      modifies this`hasCallback
      ensures hasCallback
    {
      hasCallback := true;
    }

    method SetPosition(p: Vector2f)
      modifies this`position
      ensures position == p
    {
      position := p;
    }

    method SetToggle(flag: bool)
      modifies this`isToggle
      ensures isToggle == flag
    {
      isToggle := flag;
    }

    /** A button can be selected exactly when it is not hidden. */
    predicate IsSelectable()
      reads this
      ensures IsSelectable() <==> !isHiding
    {
      if isHiding then false else true
    }

    /** Hiding greys the sprite out; showing makes it opaque again. */
    method SetHide(flag: bool)
      modifies this`isHiding, this`alpha
      ensures isHiding == flag
      ensures alpha == if flag then HiddenAlpha else OpaqueAlpha
    {
      isHiding := flag;
      if flag {
        alpha := HiddenAlpha;
      } else {
        alpha := OpaqueAlpha;
      }
    }

    method Select()
      modifies this`isSelected, this`texture
      ensures isSelected && texture == SelectedTexture
    {
      isSelected := true;
      texture := SelectedTexture;
    }

    method Deselect()
      modifies this`isSelected, this`texture
      ensures !isSelected && texture == NormalTexture
    {
      isSelected := false;
      texture := NormalTexture;
    }

    /**
     * Activation runs the callback once when one is set and plays the
     * button cue. A toggle shows the pressed texture and stays active; any
     * other button is deactivated again before activation returns.
     */
    method Activate()
      modifies this`isActive, this`texture, this`callbackRuns, this`sounds
      ensures isActive == isToggle
      ensures texture == if isToggle then PressedTexture else old(texture)
      ensures callbackRuns == old(callbackRuns) + if hasCallback then 1 else 0
      ensures sounds == old(sounds) + [SoundEffect.Button]
    {
      isActive := true;
      if isToggle {
        texture := PressedTexture;
      }
      if hasCallback {
        callbackRuns := callbackRuns + 1;
      }
      if !isToggle {
        Deactivate();
      }
      sounds := sounds + [SoundEffect.Button];
    }

    /** A toggle falls back to the texture its selection calls for; others keep theirs. */
    method Deactivate()
      modifies this`isActive, this`texture
      ensures !isActive
      ensures texture == if !isToggle then old(texture) else if isSelected then SelectedTexture else NormalTexture
    {
      isActive := false;
      if isToggle {
        if isSelected {
          texture := SelectedTexture;
        } else {
          texture := NormalTexture;
        }
      }
    }

    /**
     * checkWorldBounds: the mouse lies in the sprite's bounds moved to
     * the button's position (the cached rectangle is rebuilt on every call,
     * so it is folded in here).
     */
    predicate CheckWorldBounds(mouse: Vector2i)
      reads this
      ensures width >= 0.0 && height >= 0.0 ==>
                (CheckWorldBounds(mouse) <==>
                   position.x <= mouse.x as real < position.x + width &&
                   position.y <= mouse.y as real < position.y + height)
    {
      RectContains(FloatRect(position.x, position.y, width, height), ToFloat(mouse))
    }
  }

  /** The hidden flags of a list of buttons. */
  ghost function HiddenFlags(cs: seq<Button>): (r: seq<bool>)
    reads cs
    ensures |r| == |cs| && forall i :: 0 <= i < |cs| ==> r[i] == cs[i].isHiding
  {
    seq(|cs|, i requires 0 <= i < |cs| reads cs => cs[i].isHiding)
  }

  /** Which of a list of buttons the mouse is over. */
  ghost function HitFlags(cs: seq<Button>, mouse: Vector2i): (r: seq<bool>)
    reads cs
    ensures |r| == |cs| && forall i :: 0 <= i < |cs| ==> r[i] == cs[i].CheckWorldBounds(mouse)
  {
    seq(|cs|, i requires 0 <= i < |cs| reads cs => cs[i].CheckWorldBounds(mouse))
  }

  /**
   * When `activated`, b was activated once (its callback ran if set, its
   * cue played, and only a toggle stays active); otherwise its activation,
   * callback count and sounds are as they were.
   */
  twostate predicate ChildAfter(b: Button, activated: bool)
    reads b
  {
    if activated then
      && b.isActive == b.isToggle
      && b.callbackRuns == old(b.callbackRuns) + (if b.hasCallback then 1 else 0)
      && b.sounds == old(b.sounds) + [SoundEffect.Button]
    else
      && b.isActive == old(b.isActive) && b.callbackRuns == old(b.callbackRuns)
      && b.sounds == old(b.sounds)
  }

  // ---------------------------------------------------------------------
  // Container
  // ---------------------------------------------------------------------

  /** How the container answers one event, before any child is touched. */
  datatype Reaction =
    | ForwardToChild        // the selected child is active and gets the event
    | MovePrevious          // selectPrevious
    | MoveNext              // selectNext
    | ActivateSelection     // activate the selected child, if any
    | ClickAt               // selectMouse, then activate the selection if it hit
    | JoystickActivate      // the joystick's first button activates the selection
    | NoReaction

  /**
   * The dispatch of Container::handleEvent. `forwarding` is whether a
   * child is selected and active; `aPressed` is the joystick's first button.
   */
  function React(forwarding: bool, event: Event, isStickMove: bool, dirY: real, aPressed: bool): Reaction {
    if forwarding then ForwardToChild
    else match event
      case KeyReleased(k) => KeyReaction(k)
      case MouseButtonPressed(b) => if b == MouseLeft then ClickAt else NoReaction
      case JoystickMoved => if isStickMove then NoReaction else StickReaction(dirY)
      case JoystickButtonPressed => if aPressed then JoystickActivate else NoReaction
      case _ => NoReaction
  }

  /** A released key: W / Up and S / Down move the selection, Return / Space activate it. */
  function KeyReaction(k: Key): Reaction {
    if k == W || k == Up then MovePrevious
    else if k == S || k == Down then MoveNext
    else if k == Return || k == Space then ActivateSelection
    else NoReaction
  }

  /** An unlatched stick move: past the sensitivity, down moves forward and up backward. */
  function StickReaction(dirY: real): Reaction {
    if Abs(dirY) <= StickSensitivity then NoReaction
    else if dirY > 0.0 then MoveNext
    else MovePrevious
  }

  /**
   * The stick debounce flag after an event: a stick move arms it, and it
   * is cleared whenever the stick is back within the sensitivity.
   */
  function StickFlagAfter(forwarding: bool, event: Event, isStickMove: bool, dirY: real): (r: bool)
    ensures Abs(dirY) <= StickSensitivity ==> !r
    ensures !forwarding && event.JoystickMoved? && Abs(dirY) > StickSensitivity ==> r
    ensures r && !isStickMove ==> event.JoystickMoved? && !forwarding
  {
    if Abs(dirY) <= StickSensitivity then false
    else if !forwarding && event.JoystickMoved? then true
    else isStickMove
  }

  /**
   * How many selection moves a run of stick events makes, with no active
   * child, starting from debounce flag `flag`; dirs are the stick's
   * vertical positions at each event.
   */
  function StickMoves(flag: bool, dirs: seq<real>): nat
    decreases |dirs|
  {
    if dirs == [] then 0
    else
      var r := React(false, JoystickMoved, flag, dirs[0], false);
      (if r == MoveNext || r == MovePrevious then 1 else 0)
        + StickMoves(StickFlagAfter(false, JoystickMoved, flag, dirs[0]), dirs[1..])
  }

  /**
   * While the stick stays past the sensitivity it moves the selection at
   * most once, and not at all if the flag was already armed.
   */
  lemma {:induction false} StickDebounce(flag: bool, dirs: seq<real>)
    requires forall i :: 0 <= i < |dirs| ==> Abs(dirs[i]) > StickSensitivity
    ensures StickMoves(flag, dirs) <= if flag then 0 else 1
    decreases |dirs|
  {
    if dirs != [] {
      StickDebounce(StickFlagAfter(false, JoystickMoved, flag, dirs[0]), dirs[1..]);
    }
  }

  /** After the stick comes back within the sensitivity, the next deflection moves again. */
  lemma StickRearms(flag: bool, back: real, dirY: real)
    requires Abs(back) <= StickSensitivity && Abs(dirY) > StickSensitivity
    ensures StickMoves(flag, [back, dirY]) == 1
  {
    var after := StickFlagAfter(false, JoystickMoved, flag, back);
    assert !after && React(false, JoystickMoved, flag, back, false) == NoReaction;
    assert [back, dirY][1..] == [dirY];
    assert React(false, JoystickMoved, after, dirY, false) == StickReaction(dirY) != NoReaction;
    assert StickMoves(after, [dirY]) == 1 + StickMoves(true, []);
  }

  /** The selection after an event, from the selection, hidden flags and mouse hits before it. */
  function SelectionAfter(r: Reaction, sel: int, hidden: seq<bool>, hits: seq<bool>): (s: int)
    requires -1 <= sel < |hidden| && |hits| == |hidden|
    ensures -1 <= s < |hidden|
    ensures sel >= 0 ==> s >= 0
    ensures s != sel ==> s >= 0 && !hidden[s]
  {
    match r
    case MovePrevious =>
      if sel < 0 || false !in hidden then sel
      else
        ShownFromStart(hidden, sel);
        ScanBackward(hidden, sel, 1)
    case MoveNext =>
      if sel < 0 || false !in hidden then sel
      else
        ShownFromStart(hidden, sel);
        ScanForward(hidden, sel, 1)
    case ClickAt =>
      var f := FirstTrue(hits);
      if f >= 0 && !hidden[f] then f else sel
    case _ => sel
  }

  /**
   * The shown child a reaction passes to select, or -1 when it passes none
   * (or only a hidden one, which select ignores): the target of a move's
   * search while some child is shown, or the first child a click hit.
   */
  function SelectTarget(r: Reaction, sel: int, hidden: seq<bool>, hits: seq<bool>): (t: int)
    requires -1 <= sel < |hidden| && |hits| == |hidden|
    ensures -1 <= t < |hidden|
    ensures t >= 0 ==> !hidden[t] && t == SelectionAfter(r, sel, hidden, hits)
    ensures t < 0 ==> SelectionAfter(r, sel, hidden, hits) == sel
    ensures (r == MoveNext || r == MovePrevious) && sel >= 0 && false in hidden ==> t >= 0
    ensures r == ClickAt && FirstTrue(hits) >= 0 && !hidden[FirstTrue(hits)] ==> t == FirstTrue(hits)
  {
    match r
    case MovePrevious | MoveNext =>
      if sel < 0 || false !in hidden then -1 else SelectionAfter(r, sel, hidden, hits)
    case ClickAt =>
      var f := FirstTrue(hits);
      if f >= 0 && !hidden[f] then f else -1
    case _ => -1
  }

  /**
   * The texture of child i after a reaction that selected `target` (or
   * none), deselected the selection `sel` it replaced, and activated `act`
   * (or none): an activated toggle shows the pressed texture, a newly
   * selected child the selected one, the child it replaced the normal one,
   * and every other child keeps its texture.
   */
  function TextureAfter(t: ButtonTexture, isToggle: bool, i: int, target: int, sel: int, act: int): ButtonTexture {
    if i == act && isToggle then PressedTexture
    else if i == target then SelectedTexture
    else if i == sel && target >= 0 then NormalTexture
    else t
  }

  /**
   * The child an event activates, or -1 when it activates none: the
   * selection before the event for a key or joystick-button activation,
   * the selection after it for a click that hit a child.
   */
  function ActivatedChild(r: Reaction, sel: int, newSel: int, hits: seq<bool>): (a: int)
    requires -1 <= sel < |hits| && -1 <= newSel < |hits|
    ensures -1 <= a < |hits|
    ensures a >= 0 ==> (a == sel && (r == ActivateSelection || r == JoystickActivate))
                       || (a == newSel && r == ClickAt && FirstTrue(hits) >= 0)
    ensures r == ActivateSelection || r == JoystickActivate ==> a == sel
    ensures r == ClickAt && FirstTrue(hits) >= 0 && newSel >= 0 ==> a == newSel
  {
    match r
    case ActivateSelection => if sel >= 0 then sel else -1
    case JoystickActivate => if sel >= 0 then sel else -1
    case ClickAt => if FirstTrue(hits) >= 0 && newSel >= 0 then newSel else -1
    case _ => -1
  }

  /**
   * GUI::Container holding buttons. The selected child is the only one
   * whose selection flag is set; the stick flag debounces joystick moves.
   */
  class Container {
    var children: seq<Button>
    var selectedChild: int
    var isStickMove: bool
    const stickSensitivity: real := StickSensitivity

    ghost predicate Valid()
      reads this`children, this`selectedChild, children
    {
      && -1 <= selectedChild < |children|
      && (forall i, j :: 0 <= i < j < |children| ==> children[i] != children[j])
      && (forall i :: 0 <= i < |children| ==> (children[i].isSelected <==> i == selectedChild))
    }

    constructor ()
      ensures Valid()
      ensures children == [] && selectedChild == -1 && !isStickMove
    {
      children := [];
      selectedChild := -1;
      isStickMove := false;
    }

    /** A container is never selectable itself. */
    predicate IsSelectable()
      ensures !IsSelectable()
    {
      false
    }

    /** A container is never hit by the mouse itself. */
    predicate CheckWorldBounds()
      ensures !CheckWorldBounds()
    {
      false
    }

    predicate HasSelection()
      reads this`selectedChild
      ensures HasSelection() <==> selectedChild >= 0
    {
      selectedChild >= 0
    }

    /** Whether events go to the selected child instead of moving the selection. */
    predicate Forwarding()
      reads this`children, this`selectedChild, children
    {
      0 <= selectedChild < |children| && children[selectedChild].isActive
    }

    /**
     * select: a hidden child is ignored; otherwise the old selection is
     * deselected and child `index` becomes the selection.
     */
    method Select(index: nat)
      requires Valid() && index < |children|
      modifies this`selectedChild, children`isSelected, children`texture
      ensures Valid()
      ensures selectedChild == if old(children[index].isHiding) then old(selectedChild) else index
      ensures !old(children[index].isHiding) ==> children[index].texture == SelectedTexture
      ensures !old(children[index].isHiding) && old(selectedChild) >= 0 && old(selectedChild) != index ==>
                children[old(selectedChild)].texture == NormalTexture
      ensures forall i :: 0 <= i < |children| ==>
                children[i].texture == TextureAfter(old(children[i].texture), children[i].isToggle, i,
                                                    if old(children[index].isHiding) then -1 else index,
                                                    old(selectedChild), -1)
      ensures forall i :: 0 <= i < |children| ==> ChildAfter(children[i], false)
    {
      if children[index].IsSelectable() {
        if HasSelection() {
          children[selectedChild].Deselect();
        }
        children[index].Select();
        selectedChild := index;
      }
    }

    /**
     * pack: the child goes at the end and becomes the selection when there
     * is none yet and it can be selected.
     */
    method Pack(c: Button)
      requires Valid() && c !in children && !c.isSelected
      modifies this`children, this`selectedChild, c`isSelected, c`texture, children`isSelected, children`texture
      ensures Valid()
      ensures children == old(children) + [c]
      ensures selectedChild == if old(selectedChild) < 0 && !c.isHiding then |children| - 1 else old(selectedChild)
      ensures old(selectedChild) < 0 && !c.isHiding ==> c.texture == SelectedTexture
      ensures selectedChild == old(selectedChild) ==> unchanged(c)
      ensures ChildAfter(c, false)
      ensures forall i :: 0 <= i < |old(children)| ==> unchanged(old(children)[i])
    {
      children := children + [c];
      if !HasSelection() && c.IsSelectable() {
        Select(|children| - 1);
      }
    }

    /**
     * selectNext: without a selection nothing happens; otherwise the
     * nearest shown child after the selection, wrapping round, is selected.
     * When every child is hidden the search comes back to the selection,
     * which stays as it was.
     */
    method SelectNext(ghost hidden: seq<bool>)
      requires Valid() && hidden == HiddenFlags(children)
      modifies this`selectedChild, children`isSelected, children`texture
      ensures Valid()
      ensures selectedChild == SelectionAfter(MoveNext, old(selectedChild), hidden, hidden)
      ensures forall i :: 0 <= i < |children| ==>
                children[i].texture == TextureAfter(old(children[i].texture), children[i].isToggle, i,
                                                    SelectTarget(MoveNext, old(selectedChild), hidden, hidden),
                                                    old(selectedChild), -1)
      ensures forall i :: 0 <= i < |children| ==> ChildAfter(children[i], false)
    {
      if !HasSelection() {
        return;
      }
      var next := SearchNext(hidden);
      assert SelectTarget(MoveNext, selectedChild, hidden, hidden) == if false in hidden then next else -1;
      Select(next);
    }

    /**
     * The do-while search of selectNext, stopped once it has come round to
     * the selection: the nearest shown child after the selection, or the
     * selection itself when every child is hidden.
     */
    method SearchNext(ghost hidden: seq<bool>) returns (next: nat)
      requires hidden == HiddenFlags(children)
      requires 0 <= selectedChild < |children|
      ensures false in hidden ==> ShownAhead(hidden, selectedChild, 1) && next == ScanForward(hidden, selectedChild, 1)
      ensures false !in hidden ==> next == selectedChild
    {
      var n := |children|;
      ghost var shown := false in hidden;
      if shown {
        ShownFromStart(hidden, selectedChild);
      }
      next := Succ(selectedChild, n);
      ghost var d := 1;
      while !children[next].IsSelectable() && next != selectedChild
        invariant 1 <= d <= n && next == Ahead(selectedChild, d, n)
        invariant shown ==> ShownAhead(hidden, selectedChild, d)
        invariant shown ==> ScanForward(hidden, selectedChild, d) == ScanForward(hidden, selectedChild, 1)
        decreases n - d
      {
        assert hidden[next];
        if shown {
          ShownAheadNext(hidden, selectedChild, d);
        }
        next := Succ(next, n);
        d := d + 1;
      }
      if shown {
        if next == selectedChild {
          LapEndsOnShown(hidden, selectedChild, d);
        }
        assert !hidden[next] && ScanForward(hidden, selectedChild, d) == next;
      }
    }

    /**
     * selectPrevious: without a selection nothing happens; otherwise the
     * nearest shown child before the selection, wrapping round, is selected.
     * When every child is hidden the selection stays as it was.
     */
    method SelectPrevious(ghost hidden: seq<bool>)
      requires Valid() && hidden == HiddenFlags(children)
      modifies this`selectedChild, children`isSelected, children`texture
      ensures Valid()
      ensures selectedChild == SelectionAfter(MovePrevious, old(selectedChild), hidden, hidden)
      ensures forall i :: 0 <= i < |children| ==>
                children[i].texture == TextureAfter(old(children[i].texture), children[i].isToggle, i,
                                                    SelectTarget(MovePrevious, old(selectedChild), hidden, hidden),
                                                    old(selectedChild), -1)
      ensures forall i :: 0 <= i < |children| ==> ChildAfter(children[i], false)
    {
      if !HasSelection() {
        return;
      }
      var prev := SearchPrevious(hidden);
      assert SelectTarget(MovePrevious, selectedChild, hidden, hidden) == if false in hidden then prev else -1;
      Select(prev);
    }

    /**
     * The do-while search of selectPrevious, stopped once it has come round
     * to the selection.
     */
    method SearchPrevious(ghost hidden: seq<bool>) returns (prev: nat)
      requires hidden == HiddenFlags(children)
      requires 0 <= selectedChild < |children|
      ensures false in hidden ==> ShownBehind(hidden, selectedChild, 1) && prev == ScanBackward(hidden, selectedChild, 1)
      ensures false !in hidden ==> prev == selectedChild
    {
      var n := |children|;
      ghost var shown := false in hidden;
      if shown {
        ShownFromStart(hidden, selectedChild);
      }
      prev := Pred(selectedChild, n);
      ghost var d := 1;
      while !children[prev].IsSelectable() && prev != selectedChild
        invariant 1 <= d <= n && prev == Behind(selectedChild, d, n)
        invariant shown ==> ShownBehind(hidden, selectedChild, d)
        invariant shown ==> ScanBackward(hidden, selectedChild, d) == ScanBackward(hidden, selectedChild, 1)
        decreases n - d
      {
        assert hidden[prev];
        if shown {
          ShownBehindNext(hidden, selectedChild, d);
        }
        prev := Pred(prev, n);
        d := d + 1;
      }
      if shown {
        if prev == selectedChild {
          LapEndsOnShown(hidden, selectedChild, d);
        }
        assert !hidden[prev] && ScanBackward(hidden, selectedChild, d) == prev;
      }
    }

    /**
     * selectMouse: the first child, in order, under the mouse is hit; it
     * becomes the selection if it is shown. Whether any child was hit is
     * returned, even when the hit child could not be selected.
     */
    method SelectMouse(mouse: Vector2i, ghost hidden: seq<bool>, ghost hits: seq<bool>) returns (found: bool)
      requires Valid()
      requires hidden == HiddenFlags(children) && hits == HitFlags(children, mouse)
      modifies this`selectedChild, children`isSelected, children`texture
      ensures Valid()
      ensures found <==> FirstTrue(hits) >= 0
      ensures selectedChild == SelectionAfter(ClickAt, old(selectedChild), hidden, hits)
      ensures forall i :: 0 <= i < |children| ==>
                children[i].texture == TextureAfter(old(children[i].texture), children[i].isToggle, i,
                                                    SelectTarget(ClickAt, old(selectedChild), hidden, hits),
                                                    old(selectedChild), -1)
      ensures forall i :: 0 <= i < |children| ==> ChildAfter(children[i], false)
    {
      var index := FirstHit(mouse);
      if index >= 0 {
        // the body of select, which selectMouse repeats inline
        assert SelectTarget(ClickAt, selectedChild, hidden, hits) == if hidden[index] then -1 else index;
        Select(index);
        return true;
      }
      return false;
    }

    /** The loop of selectMouse: the first child under the mouse, or -1. */
    method FirstHit(mouse: Vector2i) returns (index: int)
      ensures index == FirstTrue(HitFlags(children, mouse))
    {
      ghost var hits := HitFlags(children, mouse);
      index := 0;
      while index < |children|
        invariant 0 <= index <= |children|
        invariant forall j :: 0 <= j < index ==> !hits[j]
      {
        if children[index].CheckWorldBounds(mouse) {
          return;
        }
        index := index + 1;
      }
      index := -1;
    }

    /**
     * What reaction r did to the selection and the children, judged
     * against the hidden flags and mouse hits before it: the selection
     * moved as SelectionAfter says, the child ActivatedChild names (if any)
     * was activated once, every other child kept its activation, callback
     * count and sounds, and every texture is as TextureAfter says (the
     * methods' frames keep every other field).
     */
    twostate predicate Reacted(r: Reaction, hidden: seq<bool>, hits: seq<bool>)
      reads this`children, this`selectedChild, children
    {
      && children == old(children)
      && |hidden| == |children| && |hits| == |children|
      && -1 <= old(selectedChild) < |children| && -1 <= selectedChild < |children|
      && selectedChild == SelectionAfter(r, old(selectedChild), hidden, hits)
      && var act := ActivatedChild(r, old(selectedChild), selectedChild, hits);
         var target := SelectTarget(r, old(selectedChild), hidden, hits);
         && (forall i :: 0 <= i < |children| ==> ChildAfter(children[i], i == act))
         && (forall i :: 0 <= i < |children| ==>
               children[i].texture == TextureAfter(old(children[i].texture), children[i].isToggle, i,
                                                   target, old(selectedChild), act))
    }

    /** Activates the selected child, if any, leaving every other child alone. */
    method ActivateSelected()
      requires Valid()
      modifies children`isActive, children`texture, children`callbackRuns, children`sounds
      ensures Valid()
      ensures forall i :: 0 <= i < |children| ==> ChildAfter(children[i], i == selectedChild)
      ensures forall i :: 0 <= i < |children| ==>
                children[i].texture == if i == selectedChild && children[i].isToggle then PressedTexture
                                       else old(children[i].texture)
    {
      if HasSelection() {
        children[selectedChild].Activate();
      }
    }

    /**
     * The joystick-button branch of handleEvent as written: with the first
     * button held it activates the child at the selection index without
     * checking that there is a selection, so it is defined only while that
     * index names a child.
     */
    method JoystickButtonAsWritten(aPressed: bool)
      requires Valid()
      requires aPressed ==> 0 <= selectedChild < |children|
      modifies children`isActive, children`texture, children`callbackRuns, children`sounds
      ensures Valid()
      ensures forall i :: 0 <= i < |children| ==> ChildAfter(children[i], aPressed && i == selectedChild)
      ensures forall i :: 0 <= i < |children| ==>
                children[i].texture == if aPressed && i == selectedChild && children[i].isToggle then PressedTexture
                                       else old(children[i].texture)
    {
      if aPressed {
        children[selectedChild].Activate();
      }
    }

    /** The key and stick moves: selectNext or selectPrevious. */
    method Move(forward: bool, ghost hidden: seq<bool>, ghost hits: seq<bool>)
      requires Valid() && hidden == HiddenFlags(children) && |hits| == |children|
      modifies this`selectedChild, children`isSelected, children`texture
      ensures Valid() && Reacted(if forward then MoveNext else MovePrevious, hidden, hits)
    {
      ghost var r := if forward then MoveNext else MovePrevious;
      ghost var sel := selectedChild;
      if forward {
        SelectNext(hidden);
      } else {
        SelectPrevious(hidden);
      }
      assert SelectionAfter(r, sel, hidden, hits) == SelectionAfter(r, sel, hidden, hidden);
      assert SelectTarget(r, sel, hidden, hits) == SelectTarget(r, sel, hidden, hidden);
      assert ActivatedChild(r, sel, selectedChild, hits) == -1;
    }

    /** A left click: select by mouse, then activate the selection if a child was hit. */
    method Click(mouse: Vector2i, ghost hidden: seq<bool>, ghost hits: seq<bool>)
      requires Valid() && hidden == HiddenFlags(children) && hits == HitFlags(children, mouse)
      modifies this`selectedChild, children`isSelected, children`texture, children`isActive, children`callbackRuns, children`sounds
      ensures Valid() && Reacted(ClickAt, hidden, hits)
    {
      ghost var before := selectedChild;
      ghost var target := SelectTarget(ClickAt, before, hidden, hits);
      var found := SelectMouse(mouse, hidden, hits);
      ghost var act := ActivatedChild(ClickAt, before, selectedChild, hits);
      assert act >= 0 ==> act == selectedChild;
      if found {
        assert act == selectedChild || (act == -1 && selectedChild == -1);
        ActivateSelected();
      } else {
        assert act == -1;
      }
      assert forall i :: 0 <= i < |children| ==> ChildAfter(children[i], i == act);
    }

    /** The released-key branch of handleEvent. */
    method HandleKey(key: Key, ghost hidden: seq<bool>, ghost hits: seq<bool>)
      requires Valid() && hidden == HiddenFlags(children) && |hits| == |children|
      modifies this`selectedChild, children`isSelected, children`texture, children`isActive, children`callbackRuns, children`sounds
      ensures Valid() && Reacted(KeyReaction(key), hidden, hits)
    {
      if key == W || key == Up {
        Move(false, hidden, hits);
      } else if key == S || key == Down {
        Move(true, hidden, hits);
      } else if key == Return || key == Space {
        ActivateSelected();
      }
    }

    /** The stick branch of handleEvent, taken while the debounce flag is down. */
    method HandleStick(dirY: real, ghost hidden: seq<bool>, ghost hits: seq<bool>)
      requires Valid() && hidden == HiddenFlags(children) && |hits| == |children|
      requires !isStickMove
      modifies this`selectedChild, children`isSelected, children`texture, this`isStickMove
      ensures Valid() && Reacted(StickReaction(dirY), hidden, hits)
      ensures isStickMove <==> Abs(dirY) > StickSensitivity
    {
      if Abs(dirY) > stickSensitivity {
        if dirY > 0.0 {
          Move(true, hidden, hits);
        } else if dirY < 0.0 {
          Move(false, hidden, hits);
        }
        isStickMove := true;
      }
    }

    /**
     * handleEvent. An active selected child takes the event (a button
     * ignores it). Otherwise a released W / Up or S / Down moves the
     * selection, Return / Space activates it, a left click selects by
     * mouse and activates the selection when a child was hit, a stick
     * deflection past the sensitivity moves the selection once until the
     * stick comes back, and the joystick's first button activates the
     * selection when there is one. The debounce flag is cleared whenever
     * the stick is within the sensitivity.
     */
    method HandleEvent(event: Event, dirY: real, aPressed: bool, mouse: Vector2i)
      requires Valid()
      modifies this`selectedChild, this`isStickMove, children`isSelected, children`texture
      modifies children`isActive, children`callbackRuns, children`sounds
      ensures Valid()
      ensures Reacted(React(old(Forwarding()), event, old(isStickMove), dirY, aPressed),
                      old(HiddenFlags(children)), old(HitFlags(children, mouse)))
      ensures isStickMove == StickFlagAfter(old(Forwarding()), event, old(isStickMove), dirY)
    {
      ghost var hidden := HiddenFlags(children);
      ghost var hits := HitFlags(children, mouse);
      ghost var r := React(Forwarding(), event, isStickMove, dirY, aPressed);
      if HasSelection() && children[selectedChild].isActive {
        // Button::handleEvent ignores every event.
        assert r == ForwardToChild;
        assert ActivatedChild(r, selectedChild, selectedChild, hits) == -1;
        assert SelectTarget(r, selectedChild, hidden, hits) == -1;
      } else {
        Dispatch(event, dirY, aPressed, mouse, hidden, hits);
      }
      assert Reacted(r, hidden, hits);

      if Abs(dirY) <= stickSensitivity {
        isStickMove := false;
      }
    }

    /** The branches of handleEvent taken when no active child has the event. */
    method Dispatch(event: Event, dirY: real, aPressed: bool, mouse: Vector2i,
                    ghost hidden: seq<bool>, ghost hits: seq<bool>)
      requires Valid() && !Forwarding()
      requires hidden == HiddenFlags(children) && hits == HitFlags(children, mouse)
      modifies this`selectedChild, this`isStickMove, children`isSelected, children`texture
      modifies children`isActive, children`callbackRuns, children`sounds
      ensures Valid()
      ensures Reacted(React(false, event, old(isStickMove), dirY, aPressed), hidden, hits)
      ensures isStickMove == if event.JoystickMoved? && !old(isStickMove) then Abs(dirY) > StickSensitivity
                             else old(isStickMove)
    {
      ghost var r := React(false, event, isStickMove, dirY, aPressed);
      if event.KeyReleased? {
        assert r == KeyReaction(event.key);
        HandleKey(event.key, hidden, hits);
      } else if event.MouseButtonPressed? {
        if event.button == MouseLeft {
          assert r == ClickAt;
          Click(mouse, hidden, hits);
        } else {
          assert r == NoReaction;
        }
      } else if event.JoystickMoved? && !isStickMove {
        assert r == StickReaction(dirY);
        HandleStick(dirY, hidden, hits);
      } else if event.JoystickButtonPressed? && aPressed {
        assert r == JoystickActivate;
        assert SelectTarget(r, selectedChild, hidden, hits) == -1;
        assert ActivatedChild(r, selectedChild, selectedChild, hits) == selectedChild;
        ActivateSelected();
      } else {
        assert r == NoReaction;
      }
    }
  }

  // ---------------------------------------------------------------------
  // The selection searches and the joystick button, as written
  // ---------------------------------------------------------------------

  datatype Option<T> = None | Some(value: T)

  /**
   * selectNext's do-while as written, run for at most `fuel` steps after
   * index `next`: the index it stops on, or None while it is still looking.
   */
  function NextSearchAsWritten(hidden: seq<bool>, next: nat, fuel: nat): Option<nat>
    requires next < |hidden|
    decreases fuel
  {
    if fuel == 0 then None
    else
      var j := Succ(next, |hidden|);
      if !hidden[j] then Some(j) else NextSearchAsWritten(hidden, j, fuel - 1)
  }

  /** selectPrevious's do-while as written, run for at most `fuel` steps. */
  function PrevSearchAsWritten(hidden: seq<bool>, prev: nat, fuel: nat): Option<nat>
    requires prev < |hidden|
    decreases fuel
  {
    if fuel == 0 then None
    else
      var j := Pred(prev, |hidden|);
      if !hidden[j] then Some(j) else PrevSearchAsWritten(hidden, j, fuel - 1)
  }

  /** With every child hidden, the searches as written never stop, however long they run. */
  lemma {:induction false} SearchAsWrittenNeverStops(hidden: seq<bool>, cur: nat, fuel: nat)
    requires cur < |hidden| && false !in hidden
    ensures NextSearchAsWritten(hidden, cur, fuel) == None
    ensures PrevSearchAsWritten(hidden, cur, fuel) == None
    decreases fuel
  {
    if fuel > 0 {
      SearchAsWrittenNeverStops(hidden, Succ(cur, |hidden|), fuel - 1);
      SearchAsWrittenNeverStops(hidden, Pred(cur, |hidden|), fuel - 1);
    }
  }

  /**
   * Where some child is shown, selectNext's loop as written stops within
   * one lap, on the child the corrected search finds: from step d on, with
   * `next` the index reached after d - 1 steps.
   */
  lemma {:induction false} NextSearchAsWrittenAgrees(hidden: seq<bool>, cur: nat, d: nat, next: nat, fuel: nat)
    requires cur < |hidden| && 1 <= d <= |hidden| && ShownAhead(hidden, cur, d)
    requires next == if d == 1 then cur else Ahead(cur, d - 1, |hidden|)
    requires fuel >= |hidden| - d + 1
    ensures NextSearchAsWritten(hidden, next, fuel) == Some(ScanForward(hidden, cur, d))
    decreases |hidden| - d
  {
    var j := Succ(next, |hidden|);
    assert j == Ahead(cur, d, |hidden|);
    if hidden[j] {
      ShownAheadNext(hidden, cur, d);
      NextSearchAsWrittenAgrees(hidden, cur, d + 1, j, fuel - 1);
    }
  }

  /** The mirror image for selectPrevious's loop. */
  lemma {:induction false} PrevSearchAsWrittenAgrees(hidden: seq<bool>, cur: nat, d: nat, prev: nat, fuel: nat)
    requires cur < |hidden| && 1 <= d <= |hidden| && ShownBehind(hidden, cur, d)
    requires prev == if d == 1 then cur else Behind(cur, d - 1, |hidden|)
    requires fuel >= |hidden| - d + 1
    ensures PrevSearchAsWritten(hidden, prev, fuel) == Some(ScanBackward(hidden, cur, d))
    decreases |hidden| - d
  {
    var j := Pred(prev, |hidden|);
    assert j == Behind(cur, d, |hidden|);
    if hidden[j] {
      ShownBehindNext(hidden, cur, d);
      PrevSearchAsWrittenAgrees(hidden, cur, d + 1, j, fuel - 1);
    }
  }

  /**
   * A reachable menu on which the searches as written never stop: its only
   * button was selected when packed and hidden afterwards, so a released
   * S or W key sends selectNext or selectPrevious round for ever.
   */
  method HiddenSelectionMenu() returns (c: Container)
    ensures c.Valid() && |c.children| == 1 && c.HasSelection()
    ensures false !in HiddenFlags(c.children)
    ensures forall fuel: nat :: NextSearchAsWritten(HiddenFlags(c.children), c.selectedChild, fuel) == None
    ensures forall fuel: nat :: PrevSearchAsWritten(HiddenFlags(c.children), c.selectedChild, fuel) == None
  {
    c := new Container();
    var b := new Button(100.0, 40.0);
    c.Pack(b);
    b.SetHide(true);
    ghost var hidden := HiddenFlags(c.children);
    assert hidden == [true];
    forall fuel: nat
      ensures NextSearchAsWritten(hidden, c.selectedChild, fuel) == None
      ensures PrevSearchAsWritten(hidden, c.selectedChild, fuel) == None
    {
      SearchAsWrittenNeverStops(hidden, c.selectedChild, fuel);
    }
  }

  /**
   * A menu whose only button is hidden has no selection, so the
   * joystick-button branch as written is called outside its domain: the
   * index it activates, -1, names no child.
   */
  method HiddenOnlyMenu() returns (c: Container)
    ensures c.Valid() && |c.children| == 1 && !c.HasSelection()
    ensures !(0 <= c.selectedChild < |c.children|)
  {
    c := new Container();
    var b := new Button(100.0, 40.0);
    b.SetHide(true);
    c.Pack(b);
  }
}
