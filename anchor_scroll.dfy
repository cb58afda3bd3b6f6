/**
 * The click handler attached to every same-page anchor (index.js:151-169):
 * it decides whether to leave the click to the browser or to ask for a
 * smooth scroll to HeaderOffset pixels above the target's document position.
 */
module AnchorScroll {

  /** The height kept free for the fixed header (index.js:159). */
  const HeaderOffset: real := 80.0

  /** What one click on an anchor does. */
  datatype Outcome =
    | BareHash               // href is exactly "#": the handler returns at once
    | Unresolved             // no element matches: nothing happens, the default is not prevented
    | SmoothScroll(top: real) // preventDefault, then window.scrollTo({top, behavior: 'smooth'})

  /** Only a resolved target cancels the browser's default navigation (index.js:157-158). */
  predicate PreventsDefault(o: Outcome)
  {
    o.SmoothScroll?
  }

  /**
   * The handler for an anchor whose href starts with '#' (the selector of
   * index.js:151 attaches it to no other). tops maps every selector that
   * resolves to an element to the top of that element's bounding box, in
   * viewport pixels; pageYOffset is the current vertical scroll.
   */
  function OnAnchorClick(href: string, tops: map<string, real>, pageYOffset: real): (o: Outcome)
    requires |href| > 0 && href[0] == '#'
    ensures o.BareHash? <==> href == "#"
    ensures o.Unresolved? <==> href != "#" && href !in tops
    ensures PreventsDefault(o) <==> href != "#" && href in tops
    ensures o.SmoothScroll? ==> href in tops && tops[href] - (o.top - pageYOffset) == HeaderOffset
  {
    if href == "#" then BareHash
    else if href !in tops then Unresolved
    else SmoothScroll(tops[href] + pageYOffset - HeaderOffset)
  }

  /** The example of a section "#team" 500 pixels down an unscrolled page: scroll to 420. */
  lemma TeamSectionExample()
    ensures OnAnchorClick("#team", map["#team" := 500.0], 0.0) == SmoothScroll(420.0)
  {
  }

  /**
   * The scroll target does not depend on the scroll before the click:
   * for an element at document position documentTop, whose viewport top is
   * documentTop minus the current scroll, any two scroll positions give the
   * same scroll target, documentTop - HeaderOffset.
   */
  lemma TargetIndependentOfScroll(href: string, documentTop: real, scrollA: real, scrollB: real)
    requires |href| > 0 && href[0] == '#' && href != "#"
    ensures OnAnchorClick(href, map[href := documentTop - scrollA], scrollA) ==
            OnAnchorClick(href, map[href := documentTop - scrollB], scrollB)
    ensures OnAnchorClick(href, map[href := documentTop - scrollA], scrollA) == SmoothScroll(documentTop - HeaderOffset)
  {
    var o := OnAnchorClick(href, map[href := documentTop - scrollA], scrollA);
    assert o.SmoothScroll? && (documentTop - scrollA) - (o.top - scrollA) == HeaderOffset;
  }

}
