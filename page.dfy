/**
 * The page controller: the state that the DOMContentLoaded handler of
 * index.js keeps in its closure, and one method per event it listens to.
 * Handlers that the source does not register in a configuration (no menu,
 * a touch device, a desktop) are modelled as events that change nothing.
 */
module PageController {
  import opened Wrappers
  import opened Geometry
  import Reveal
  import Konami
  import Navigation
  import Cursor
  import Parallax
  import FadeIn

  class Page {
    /** matchMedia('(max-width: 768px)').matches (index.js:15). */
    const isMobile: bool
    /** 'ontouchstart' in window (index.js:16). */
    const isTouch: bool
    /** navToggle && navLinks both exist (index.js:124). */
    const hasNav: bool
    /** The .hero-image element exists (index.js:175-177). */
    const hasHero: bool

    const texts: Reveal.HiddenTexts
    const fade: FadeIn.FadeObserver

    /** The last pointer position (mouseX, mouseY) and the eased cursor (currentX, currentY). */
    var mouseX: real
    var mouseY: real
    var currentX: real
    var currentY: real
    /** The lantern cursor's inline opacity; None until the pointer first leaves or enters. */
    var cursorOpacity: Option<real>

    var konamiIndex: nat

    /** Whether navLinks and navToggle carry the class "active". */
    var navLinksActive: bool
    var navToggleActive: bool

    /** The hero image's inline transform; None until the first scroll applies one. */
    var heroTransform: Option<Parallax.HeroTransform>

    /** The lantern cursor and its proximity check run only here (index.js:22). */
    predicate Desktop()
    {
      !isMobile && !isTouch
    }

    ghost predicate Valid()
      reads this, texts, fade
    {
      texts.Valid() && fade.Valid() &&
      konamiIndex < |Konami.Code| &&
      navLinksActive == navToggleActive
    }

    /**
     * The DOMContentLoaded handler itself: on a desktop the first animation
     * frame runs at once (index.js:51) with the pointer at (0, 0); on a touch
     * device or a narrow screen the fixed hidden texts are hidden
     * (index.js:92-100); the fade-in targets are observed (index.js:207-212).
     * layout gives each hidden text's box at that moment.
     */
    constructor (isMobile: bool, isTouch: bool, hasNav: bool, hasHero: bool,
                 inline: seq<bool>, fixedPosition: seq<bool>, layout: seq<Rect>,
                 fadeTargets: set<nat>)
      requires |inline| == |fixedPosition| == |layout|
      ensures Valid()
      ensures fresh(texts) && fresh(texts.revealed) && fresh(texts.displayNone) && fresh(fade)
      ensures this.isMobile == isMobile && this.isTouch == isTouch
      ensures this.hasNav == hasNav && this.hasHero == hasHero
      ensures texts.inline == inline && texts.fixedPosition == fixedPosition
      ensures fade.targets == fadeTargets && fade.observed == fadeTargets && fade.visible == {}
      ensures mouseX == 0.0 && mouseY == 0.0 && currentX == 0.0 && currentY == 0.0
      ensures cursorOpacity == None && heroTransform == None
      ensures konamiIndex == 0 && !navLinksActive && !navToggleActive
      ensures forall i :: 0 <= i < texts.revealed.Length ==>
        (texts.revealed[i] <==> Desktop() && Within(0.0, 0.0, layout[i], Reveal.RevealDistance))
      ensures forall i :: 0 <= i < texts.displayNone.Length ==>
        (texts.displayNone[i] <==> (isTouch || isMobile) && fixedPosition[i])
    {
      this.isMobile := isMobile;
      this.isTouch := isTouch;
      this.hasNav := hasNav;
      this.hasHero := hasHero;
      texts := new Reveal.HiddenTexts(inline, fixedPosition);
      fade := new FadeIn.FadeObserver(fadeTargets);
      mouseX, mouseY, currentX, currentY := 0.0, 0.0, 0.0, 0.0;
      cursorOpacity := None;
      konamiIndex := 0;
      navLinksActive, navToggleActive := false, false;
      heroTransform := None;
      new;
      if !isMobile && !isTouch {
        texts.CheckProximity(0.0, 0.0, layout);
      }
      if isTouch || isMobile {
        texts.HideFixed();
      }
    }

    /** mousemove (index.js:29-32): remembers the pointer. */
    method MouseMove(x: real, y: real)
      requires Valid()
      modifies this
      ensures Valid()
      ensures if Desktop() then mouseX == x && mouseY == y else mouseX == old(mouseX) && mouseY == old(mouseY)
      ensures currentX == old(currentX) && currentY == old(currentY) && cursorOpacity == old(cursorOpacity)
      ensures konamiIndex == old(konamiIndex) && heroTransform == old(heroTransform)
      ensures navLinksActive == old(navLinksActive) && navToggleActive == old(navToggleActive)
    {
      if Desktop() {
        mouseX, mouseY := x, y;
      }
    }

    /**
     * One animation frame (index.js:35-48): the cursor eases toward the
     * pointer and every hidden text is revealed or hidden by its distance
     * to the pointer. layout gives each hidden text's box in this frame.
     */
    method AnimationFrame(layout: seq<Rect>)
      requires Valid() && |layout| == texts.revealed.Length
      modifies this, texts.revealed
      ensures Valid()
      ensures Desktop() ==>
        currentX == Cursor.EaseToward(old(currentX), mouseX) &&
        currentY == Cursor.EaseToward(old(currentY), mouseY)
      ensures Desktop() ==> forall i :: 0 <= i < texts.revealed.Length ==>
        (texts.revealed[i] <==> Within(mouseX, mouseY, layout[i], Reveal.RevealDistance))
      ensures !Desktop() ==> currentX == old(currentX) && currentY == old(currentY)
      ensures !Desktop() ==> unchanged(texts.revealed)
      ensures mouseX == old(mouseX) && mouseY == old(mouseY) && cursorOpacity == old(cursorOpacity)
      ensures konamiIndex == old(konamiIndex) && heroTransform == old(heroTransform)
      ensures navLinksActive == old(navLinksActive) && navToggleActive == old(navToggleActive)
    {
      if Desktop() {
        currentX := Cursor.EaseToward(currentX, mouseX);
        currentY := Cursor.EaseToward(currentY, mouseY);
        texts.CheckProximity(mouseX, mouseY, layout);
      }
    }

    /** mouseleave on the document (index.js:54-56): the cursor turns transparent. */
    method MouseLeave()
      requires Valid()
      modifies this
      ensures Valid()
      ensures cursorOpacity == if Desktop() then Some(0.0) else old(cursorOpacity)
      ensures mouseX == old(mouseX) && mouseY == old(mouseY)
      ensures currentX == old(currentX) && currentY == old(currentY)
      ensures konamiIndex == old(konamiIndex) && heroTransform == old(heroTransform)
      ensures navLinksActive == old(navLinksActive) && navToggleActive == old(navToggleActive)
    {
      if Desktop() {
        cursorOpacity := Some(0.0);
      }
    }

    /** mouseenter on the document (index.js:58-60): the cursor turns opaque. */
    method MouseEnter()
      requires Valid()
      modifies this
      ensures Valid()
      ensures cursorOpacity == if Desktop() then Some(1.0) else old(cursorOpacity)
      ensures mouseX == old(mouseX) && mouseY == old(mouseY)
      ensures currentX == old(currentX) && currentY == old(currentY)
      ensures konamiIndex == old(konamiIndex) && heroTransform == old(heroTransform)
      ensures navLinksActive == old(navLinksActive) && navToggleActive == old(navToggleActive)
    {
      if Desktop() {
        cursorOpacity := Some(1.0);
      }
    }

    /**
     * touchstart at (x, y), the first touch point (index.js:103-117); only
     * registered on touch devices and narrow screens.
     */
    method TouchStart(x: real, y: real, layout: seq<Rect>)
      requires Valid() && |layout| == texts.revealed.Length
      modifies texts.revealed
      ensures Valid()
      ensures forall i :: 0 <= i < texts.revealed.Length ==>
        texts.revealed[i] == (old(texts.revealed[i]) ||
          ((isTouch || isMobile) && texts.inline[i] && Within(x, y, layout[i], Reveal.TouchRevealDistance)))
    {
      if isTouch || isMobile {
        texts.TouchReveal(x, y, layout);
      }
    }

    /**
     * keydown (index.js:226-240): the detector takes one step; when the step
     * completes the code every hidden text is revealed, and otherwise no
     * hidden text changes.
     */
    method KeyDown(key: string)
      requires Valid()
      modifies this, texts.revealed
      ensures Valid()
      ensures konamiIndex == Konami.Step(old(konamiIndex), key).next
      ensures Konami.Step(old(konamiIndex), key).revealAll ==>
        forall i :: 0 <= i < texts.revealed.Length ==> texts.revealed[i]
      ensures !Konami.Step(old(konamiIndex), key).revealAll ==> unchanged(texts.revealed)
      ensures mouseX == old(mouseX) && mouseY == old(mouseY) && cursorOpacity == old(cursorOpacity)
      ensures currentX == old(currentX) && currentY == old(currentY) && heroTransform == old(heroTransform)
      ensures navLinksActive == old(navLinksActive) && navToggleActive == old(navToggleActive)
    {
      if key == Konami.Code[konamiIndex] {
        konamiIndex := konamiIndex + 1;
        if konamiIndex == |Konami.Code| {
          texts.RevealAll();
          konamiIndex := 0;
        }
      } else {
        konamiIndex := 0;
      }
    }

    /** A click on navToggle (index.js:125-128): both "active" classes flip. */
    method ToggleClick()
      requires Valid()
      modifies this
      ensures Valid()
      ensures navLinksActive == (if hasNav then !old(navLinksActive) else old(navLinksActive))
      ensures navToggleActive == navLinksActive
      ensures mouseX == old(mouseX) && mouseY == old(mouseY) && cursorOpacity == old(cursorOpacity)
      ensures currentX == old(currentX) && currentY == old(currentY)
      ensures konamiIndex == old(konamiIndex) && heroTransform == old(heroTransform)
    {
      if hasNav {
        navLinksActive := !navLinksActive;
        navToggleActive := !navToggleActive;
      }
    }

    /** A click on a link of the menu (index.js:132-135): both "active" classes go. */
    method MenuLinkClick()
      requires Valid()
      modifies this
      ensures Valid()
      ensures navLinksActive == (if hasNav then false else old(navLinksActive))
      ensures navToggleActive == navLinksActive
      ensures mouseX == old(mouseX) && mouseY == old(mouseY) && cursorOpacity == old(cursorOpacity)
      ensures currentX == old(currentX) && currentY == old(currentY)
      ensures konamiIndex == old(konamiIndex) && heroTransform == old(heroTransform)
    {
      if hasNav {
        navLinksActive := false;
        navToggleActive := false;
      }
    }

    /**
     * The document's click listener (index.js:139-144): a click outside both
     * the toggle and the menu removes both "active" classes; any other
     * click leaves them.
     */
    method DocumentClick(target: Navigation.ClickTarget)
      requires Valid()
      modifies this
      ensures Valid()
      ensures navLinksActive == (if hasNav && !Navigation.InsideNav(target) then false else old(navLinksActive))
      ensures navToggleActive == navLinksActive
      ensures mouseX == old(mouseX) && mouseY == old(mouseY) && cursorOpacity == old(cursorOpacity)
      ensures currentX == old(currentX) && currentY == old(currentY)
      ensures konamiIndex == old(konamiIndex) && heroTransform == old(heroTransform)
    {
      if hasNav && !Navigation.InsideNav(target) {
        navLinksActive := false;
        navToggleActive := false;
      }
    }

    /**
     * One click, dispatched as the browser does: first the listener of the
     * element hit (the toggle or a menu link), then, as the event bubbles,
     * the document's listener.
     */
    method Click(target: Navigation.ClickTarget)
      requires Valid()
      modifies this
      ensures Valid()
      ensures navLinksActive == (if hasNav then Navigation.AfterClick(old(navLinksActive), target) else old(navLinksActive))
      ensures navToggleActive == navLinksActive
      ensures mouseX == old(mouseX) && mouseY == old(mouseY) && cursorOpacity == old(cursorOpacity)
      ensures currentX == old(currentX) && currentY == old(currentY)
      ensures konamiIndex == old(konamiIndex) && heroTransform == old(heroTransform)
    {
      if target == Navigation.ToggleButton {
        ToggleClick();
      } else if target == Navigation.MenuLink {
        MenuLinkClick();
      }
      DocumentClick(target);
    }

    /**
     * The fade observer's callback for one batch of entries (index.js:197-204);
     * the browser reports only elements still observed.
     */
    method Intersect(entries: seq<FadeIn.Entry>)
      requires Valid()
      requires forall i :: 0 <= i < |entries| ==> entries[i].target in fade.observed
      modifies fade
      ensures Valid()
      ensures fade.visible == old(fade.visible) + FadeIn.Hits(entries)
      ensures fade.observed == old(fade.observed) - FadeIn.Hits(entries)
    {
      fade.Callback(entries);
    }

    /**
     * scroll (index.js:178-185), registered when the hero image exists on a
     * non-touch device: the transform is rewritten only while the page is
     * scrolled less than one viewport height; past that it stays as it was.
     */
    method Scroll(pageYOffset: real, innerHeight: real)
      requires Valid()
      modifies this
      ensures Valid()
      ensures heroTransform ==
        if hasHero && !isTouch && pageYOffset < innerHeight then Some(Parallax.TransformAt(pageYOffset))
        else old(heroTransform)
      ensures mouseX == old(mouseX) && mouseY == old(mouseY) && cursorOpacity == old(cursorOpacity)
      ensures currentX == old(currentX) && currentY == old(currentY) && konamiIndex == old(konamiIndex)
      ensures navLinksActive == old(navLinksActive) && navToggleActive == old(navToggleActive)
    {
      if hasHero && !isTouch {
        if pageYOffset < innerHeight {
          heroTransform := Some(Parallax.TransformAt(pageYOffset));
        }
      }
    }
  }
}
