/**
 * The mobile-menu handlers of index.js:124-145. The menu and its toggle each
 * carry an "active" class; a click is routed by where it lands.
 */
module Navigation {

  /**
   * Where a click lands: on (or inside) the toggle button, on a link of the
   * menu, elsewhere inside the menu, or outside both. The toggle and the
   * menu are disjoint parts of the page.
   */
  datatype ClickTarget = ToggleButton | MenuLink | MenuOther | Outside

  /** navToggle.contains(target) || navLinks.contains(target) (index.js:140). */
  predicate InsideNav(target: ClickTarget)
  {
    !target.Outside?
  }

  /**
   * Whether the menu is open after one click has run the handlers it reaches:
   * the toggle's listener (index.js:125-128) or a menu link's listener
   * (index.js:132-135), then the document's listener (index.js:139-144).
   */
  function AfterClick(open: bool, target: ClickTarget): (after: bool)
    ensures target == ToggleButton ==> after == !open
    ensures after && !open ==> target == ToggleButton
    ensures !InsideNav(target) ==> !after
    ensures target == MenuLink ==> !after
    ensures target == MenuOther ==> after == open
  {
    match target
    case ToggleButton => !open
    case MenuLink => false
    case MenuOther => open
    case Outside => false
  }

  /** Closing clicks are idempotent: a second one changes nothing. */
  lemma CloseIsIdempotent(open: bool, target: ClickTarget)
    requires target == MenuLink || target == Outside
    ensures AfterClick(AfterClick(open, target), target) == AfterClick(open, target)
    ensures AfterClick(false, target) == false
  {
  }

  /** Two toggle clicks restore the state before them. */
  lemma ToggleTwiceRestores(open: bool)
    ensures AfterClick(AfterClick(open, ToggleButton), ToggleButton) == open
  {
  }

  /** The state after a sequence of clicks, starting from open. */
  function AfterClicks(open: bool, targets: seq<ClickTarget>): (after: bool)
    ensures (forall i :: 0 <= i < |targets| ==> targets[i] != ToggleButton) ==> (after ==> open)
    decreases |targets|
  {
    if targets == [] then open else AfterClicks(AfterClick(open, targets[0]), targets[1..])
  }

  /**
   * After the last closing click (a menu link or outside), only toggle clicks
   * can have reopened the menu: it is open exactly when an odd number of
   * toggle clicks followed.
   */
  lemma {:induction false} OpenAfterClose(open: bool, targets: seq<ClickTarget>, k: nat)
    requires k < |targets| && (targets[k] == MenuLink || targets[k] == Outside)
    requires forall i :: k < i < |targets| ==> targets[i] != MenuLink && targets[i] != Outside
    ensures AfterClicks(open, targets) == (TogglesIn(targets[k + 1..]) % 2 == 1)
    decreases |targets|
  {
    if k > 0 {
      assert targets[1..][k - 1] == targets[k];
      assert targets[1..][k..] == targets[k + 1..];
      OpenAfterClose(AfterClick(open, targets[0]), targets[1..], k - 1);
    } else {
      OnlyToggles(false, targets[1..]);
    }
  }

  /** The number of toggle clicks in targets. */
  function TogglesIn(targets: seq<ClickTarget>): nat
  {
    if targets == [] then 0 else (if targets[0] == ToggleButton then 1 else 0) + TogglesIn(targets[1..])
  }

  /** Clicks that never close the menu flip it once per toggle click. */
  lemma {:induction false} OnlyToggles(open: bool, targets: seq<ClickTarget>)
    requires forall i :: 0 <= i < |targets| ==> targets[i] != MenuLink && targets[i] != Outside
    ensures AfterClicks(open, targets) == (open != (TogglesIn(targets) % 2 == 1))
    decreases |targets|
  {
    if targets != [] {
      OnlyToggles(AfterClick(open, targets[0]), targets[1..]);
    }
  }
}
