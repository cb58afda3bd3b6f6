/**
 * The hero-image parallax of index.js:175-186: while the page is scrolled
 * less than one viewport height, the image drifts down at 30% of the scroll
 * and shrinks slightly.
 */
module Parallax {

  /** The transform written into the hero image's style: translateY(...) scale(...). */
  datatype HeroTransform = HeroTransform(translateY: real, scale: real)

  /**
   * The transform for a scroll offset (index.js:179-183). The scale loses
   * 1/1500 per pixel of drift, since 0.0002 / 0.3 == 1 / 1500; scrolling down
   * moves the image down and never enlarges it.
   */
  function TransformAt(scrolled: real): (t: HeroTransform)
    ensures t.scale == 1.0 - t.translateY / 1500.0
    ensures scrolled >= 0.0 ==> t.translateY >= 0.0 && t.scale <= 1.0
    ensures scrolled == 0.0 ==> t == HeroTransform(0.0, 1.0)
  {
    HeroTransform(scrolled * 0.3, 1.0 - scrolled * 0.0002)
  }

  /** Farther down the page the image has drifted farther and is smaller. */
  lemma MonotoneInScroll(a: real, b: real)
    requires a <= b
    ensures TransformAt(a).translateY <= TransformAt(b).translateY
    ensures TransformAt(b).scale <= TransformAt(a).scale
  {
  }
}
