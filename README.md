# Page controller of the $CYNIC landing page, modelled in Dafny

`index.js` wires a handful of behaviours to browser events once the document
has loaded: a lantern cursor that eases toward the pointer, hidden texts that
are revealed when the pointer (or a tap) comes close, a mobile menu opened by a
toggle and closed by links or outside clicks, smooth scrolling to same-page
anchors below a fixed header, a parallax hero image, one-shot fade-in of cards
and sections, and a Konami-code easter egg that reveals every hidden text.

The model keeps the source's shape. The closure state of the load handler is
the class `PageController.Page`, one method per event; the hidden texts are the
class `Reveal.HiddenTexts`, whose `revealed` and `displayNone` flags are arrays
updated by the same loops the source runs with `forEach`; the fade-in observer
is the class `FadeIn.FadeObserver` over sets of observed and visible elements.
The decisions those methods take are pure functions, each with the lemmas that
say what it means:

- `Konami`: the detector as a transition function `Step` and its iteration
  `Run` over a run of keys. The index always stays in 0..9; every reveal costs
  ten keys; typing the code from rest reveals exactly once and returns to 0; a
  proper prefix reveals nothing; after any reset the code works again; a
  non-zero index is always the length of a prefix of the code that the last
  keys spell, so a reveal only ever follows the full code. The automaton does
  not retry a mismatching key, so `ArrowUp` typed three times before the rest
  of the code defeats it (`ExtraUpDefeatsCode`).
- `Geometry`: box centres and the squared distance. The source compares
  `Math.sqrt` of the squared distance with the radius; the model compares the
  squared distance with the squared radius, and `DistanceTest` shows the two
  tests agree.
- `Navigation`: where a click lands and the menu state after it has bubbled
  through the listeners; closing is idempotent, two toggles cancel out, and
  after the last closing click the menu is open exactly when an odd number of
  toggle clicks followed.
- `AnchorScroll`: the outcome of a click on a `#` anchor; the scroll target for a
  resolved element is 80 pixels above its position in the document.
- `Cursor`: one frame of easing and n frames of it; the gap to a still pointer
  is multiplied by 0.85 per frame and never changes side.
- `Parallax`: the hero transform for a scroll offset.

On a desktop every animation frame recomputes each hidden text's flag from
its distance to the pointer (`Page.AnimationFrame`), so the easter egg's
reveal of all texts lasts only until the next frame for texts far from the
pointer; off the desktop (touch devices and narrow screens) nothing clears a
flag, so it stays.

Host state is passed in: the boxes of the hidden texts (`getBoundingClientRect`)
as a `seq<Rect>` per call, the result of `document.querySelector` as a map from
selector to the target's top, `pageYOffset` and `innerHeight` as reals, the
media query and touch detection as the constants `isMobile` and `isTouch`, the
presence of the menu and of the hero image as `hasNav` and `hasHero`, and the
intersection observer's reports as a sequence of entries. A listener that the
source does not register in a configuration is modelled as an event that
changes nothing.

## Model

| member | source | states |
|---|---|---|
| `Geometry.SquaredDistance` | index.js:70-77 | the squared distance from the point to the box centre is never negative and is zero at the centre |
| `Geometry.DistanceTest` | index.js:74-80 | for the non-negative d whose square is the squared distance, `d < radius` holds exactly when `Within` does |
| `Geometry.WithinGrows` | index.js:80 | a point strictly within a radius is strictly within every larger radius |
| `Reveal.TapInsideHover` | index.js:112 | a point within the tap radius (100) is within the desktop radius (150) |
| `Reveal.HiddenTexts.constructor` | index.js:9 | the hidden texts start with no "revealed" class and no script-set display |
| `Reveal.HiddenTexts.CheckProximity` | index.js:67-86 | afterwards each text is revealed if and only if the point is strictly within 150 of its centre; otherwise the flag is cleared |
| `Reveal.HiddenTexts.TouchReveal` | index.js:103-117 | a text's flag becomes its old flag or (it is inline and strictly within 100); no flag is cleared and non-inline texts keep theirs |
| `Reveal.HiddenTexts.RevealAll` | index.js:231-233 | every text is revealed |
| `Reveal.HiddenTexts.HideFixed` | index.js:94-100 | exactly the fixed-position texts gain display none; the others keep theirs |
| `Konami.Step` | index.js:226-240 | the next index is below 10; the expected key advances the index by one or completes the code, any other key sets it to 0; a reveal happens exactly on the expected tenth key |
| `Konami.Run` | index.js:223-240 | after any run of keys the index is below 10, and ten times the number of reveals plus the final index never exceeds the starting index plus the number of keys |
| `Konami.RunAppend` | index.js:226-240 | running two runs of keys in a row is running the second from where the first left off; reveals add up |
| `Konami.PrefixAdvances` | index.js:227-229 | a proper prefix of the code of length k, typed from rest, leaves the index at k and reveals nothing |
| `Konami.RemainderCompletes` | index.js:227-234 | from index k, the remaining keys of the code reveal exactly once and return the index to 0 |
| `Konami.FullCodeRevealsOnce` | index.js:223-234 | the ten-key code typed from rest reveals exactly once and leaves the index at 0 |
| `Konami.RetryAfterReset` | index.js:226-240 | whenever the index is back at 0, typing the code reveals exactly once more |
| `Konami.IndexIsTypedPrefix` | index.js:226-240 | the index is always the length of a prefix of the code that the keys typed so far end with |
| `Konami.RevealNeedsFullCode` | index.js:229-233 | a keydown reveals only if it and the nine keys before it spell the code |
| `Konami.WithoutUpStaysAtRest` | index.js:227-228 | from rest, keys none of which is ArrowUp leave the index at 0 and reveal nothing |
| `Konami.ExtraUpDefeatsCode` | index.js:237-239 | the mismatching key is not retried: one extra ArrowUp before the code yields no reveal |
| `Navigation.AfterClick` | index.js:124-145 | a toggle click flips the menu; a menu-link or outside click closes it; any other click inside the menu leaves it; only a toggle click opens it |
| `Navigation.CloseIsIdempotent` | index.js:132-144 | a second closing click changes nothing, and a closing click on a closed menu leaves it closed |
| `Navigation.ToggleTwiceRestores` | index.js:125-128 | two toggle clicks restore the state |
| `Navigation.AfterClicks` | index.js:124-145 | clicks that include no toggle click never open a closed menu |
| `Navigation.OnlyToggles` | index.js:125-128 | clicks without closing clicks flip the menu once per toggle click |
| `Navigation.OpenAfterClose` | index.js:124-145 | after the last closing click the menu is open exactly when an odd number of toggle clicks followed it |
| `AnchorScroll.OnAnchorClick` | index.js:152-168 | a bare `#` does nothing; an unresolved target does nothing and does not prevent the default; otherwise the default is prevented and the scroll target is 80 pixels above the element's position in the document (its viewport top plus the current scroll) |
| `AnchorScroll.TeamSectionExample` | index.js:159-161 | a target 500 pixels down an unscrolled page gives a scroll target of 420 |
| `AnchorScroll.TargetIndependentOfScroll` | index.js:159-161 | for an element at a fixed document position, every scroll before the click gives the same scroll target, 80 above that position |
| `Cursor.EaseToward` | index.js:37-39 | one frame multiplies the gap to the pointer by 0.85 and keeps the cursor between its old position and the pointer |
| `Cursor.Glide` | index.js:35-47 | after any number of frames toward a still pointer the cursor lies between its start and the pointer |
| `Cursor.GlideGap` | index.js:37-39 | after n frames the gap is 0.85^n times the gap before them |
| `Cursor.GapStrictlyShrinks` | index.js:37-39 | while the cursor is off the pointer each frame strictly shrinks the gap without crossing it |
| `Parallax.TransformAt` | index.js:179-183 | the scale loses 1/1500 per pixel of drift; at offset 0 the image is untransformed; scrolling down moves it down and never enlarges it |
| `Parallax.MonotoneInScroll` | index.js:180-183 | a larger offset gives a larger drift and a smaller scale |
| `FadeIn.FadeObserver.constructor` | index.js:207-212 | every target is observed and none is visible |
| `FadeIn.FadeObserver.Callback` | index.js:197-204 | intersecting targets become visible and stop being observed, the others are untouched; every target stays either observed or visible, never both |
| `FadeIn.OnceVisibleNeverObserved` | index.js:199-201 | a visible element is never reported again and stays visible |
| `PageController.Page.constructor` | index.js:8-26 | all state starts at rest; on a desktop the first frame runs with the pointer at (0, 0); on touch or narrow screens exactly the fixed texts are hidden; the fade targets are observed |
| `PageController.Page.MouseMove` | index.js:29-32 | on a desktop the pointer is recorded; nothing else changes |
| `PageController.Page.AnimationFrame` | index.js:35-48 | on a desktop the cursor eases toward the pointer on both axes and every text's flag is set by its distance to the pointer; elsewhere nothing changes |
| `PageController.Page.MouseLeave` | index.js:54-56 | on a desktop the cursor's opacity becomes 0 |
| `PageController.Page.MouseEnter` | index.js:58-60 | on a desktop the cursor's opacity becomes 1 |
| `PageController.Page.TouchStart` | index.js:103-117 | on touch devices and narrow screens inline texts strictly within 100 of the touch are revealed; no flag is ever cleared |
| `PageController.Page.KeyDown` | index.js:226-240 | the index takes one `Konami.Step` and stays in 0..9; on the completing key every text is revealed, otherwise no text changes; nothing else changes |
| `PageController.Page.ToggleClick` | index.js:125-128 | both "active" flags flip together and stay equal |
| `PageController.Page.MenuLinkClick` | index.js:131-136 | both "active" flags become false |
| `PageController.Page.DocumentClick` | index.js:139-144 | a click outside toggle and menu clears both flags; any other click leaves them |
| `PageController.Page.Click` | index.js:124-145 | one bubbled click leaves the menu in the state `Navigation.AfterClick` gives, with the two flags equal |
| `PageController.Page.Intersect` | index.js:197-204 | intersecting reported elements become visible and stop being observed; the others are untouched; each fade target stays either observed or visible |
| `PageController.Page.Scroll` | index.js:175-186 | below one viewport height the hero transform is rewritten from the offset; at or past it, and on touch devices or without a hero, it stays as it was |

## Left out

- Looking up elements and registering listeners (`getElementById`, `querySelectorAll`, `addEventListener`): host plumbing; the model's constructor and methods stand for the registered handlers.
- The scheduling of `requestAnimationFrame`: each frame is one call of `Page.AnimationFrame`; the endless loop itself is not modelled.
- Floating point: coordinates, offsets and factors are exact reals, so rounding of `Math.sqrt`, `Math.pow`, the easing and the parallax factors is not modelled; in particular a distance that rounds across the threshold is not.
- CSS strings and styles: the `left`/`top` pixel strings, the `translateY(...) scale(...)` string, the fade-in start styles and transition, and the injected style rule are represented by the values they carry or not at all.
- The intersection observer's threshold (0.1) and root margin: when an element counts as intersecting is the browser's computation; the model takes the entries it reports, and only for elements it still observes.
- `console.log` messages: output only.
- `AnchorScroll.OnAnchorClick`: does not model the exception `document.querySelector` throws for an href that is not a valid selector (for example `#1st`); such an href is treated as unresolved.
- The smooth scroll animation itself: the model stops at the target offset handed to `window.scrollTo`.
- The browser clamps that offset to the scrollable range, so near the top or the bottom of the page (for example an element at document top 0, which gives the offset -80) the element does not come to rest 80 pixels below the viewport top; the model does not describe where it lands.
- A click on a menu link whose href starts with `#` runs both the menu-link listener and the anchor listener; the two are modelled separately (`Page.MenuLinkClick` or `Page.Click`, and `AnchorScroll.OnAnchorClick`).
- The lantern cursor element is assumed present. The source never checks for it: on a desktop page without `#lanternCursor` the first frame throws at `lanternCursor.style.left`, which aborts the load handler and registers none of the later listeners (menu, anchors, parallax, fade-in, keydown). The model has no such abort: it describes pages that carry the cursor element.
- The toggle button and the menu are assumed disjoint (neither contains the other); the routing of a click by `navToggle.contains` and `navLinks.contains` in `Navigation.AfterClick` depends on it.
- The page's initial classes come from HTML that is not part of this model: the menu is assumed closed, no text revealed, and the cursor without an inline opacity.
- Whether a text is inline or fixed-position is read once as constants; the script never changes either.
