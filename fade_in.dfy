/**
 * The one-shot fade-in of index.js:192-212: an intersection observer watches
 * the cards and sections, and the first time one of them is reported as
 * intersecting it receives the class fade-in-visible and stops being watched.
 */
module FadeIn {

  /** One IntersectionObserverEntry: which element, and whether it now intersects. */
  datatype Entry = Entry(target: nat, isIntersecting: bool)

  /** The elements that a batch of entries reports as intersecting. */
  function Hits(entries: seq<Entry>): set<nat>
  {
    set i | 0 <= i < |entries| && entries[i].isIntersecting :: entries[i].target
  }

  class FadeObserver {
    /** The elements observed at load time (index.js:207-212). */
    const targets: set<nat>
    /** The elements still observed. */
    var observed: set<nat>
    /** The elements that carry fade-in-visible. */
    var visible: set<nat>

    /** Every target is either still observed or already visible, never both. */
    ghost predicate Valid()
      reads this
    {
      observed !! visible && observed + visible == targets
    }

    /** fadeObserver.observe(el) for each target; nothing is visible yet. */
    constructor (targets: set<nat>)
      ensures Valid() && this.targets == targets
      ensures observed == targets && visible == {}
    {
      this.targets := targets;
      observed := targets;
      visible := {};
    }

    /**
     * The observer callback (index.js:197-204). The browser only reports
     * elements that are observed when the batch is delivered. Each reported
     * intersecting element becomes visible and is unobserved; the others
     * are untouched.
     */
    method Callback(entries: seq<Entry>)
      requires Valid()
      requires forall i :: 0 <= i < |entries| ==> entries[i].target in observed
      modifies this
      ensures Valid()
      ensures visible == old(visible) + Hits(entries)
      ensures observed == old(observed) - Hits(entries)
    {
      var i := 0;
      while i < |entries|
        invariant 0 <= i <= |entries|
        invariant visible == old(visible) + Hits(entries[..i])
        invariant observed == old(observed) - Hits(entries[..i])
      {
        assert Hits(entries[..i + 1]) == Hits(entries[..i]) +
          (if entries[i].isIntersecting then {entries[i].target} else {});
        if entries[i].isIntersecting {
          visible := visible + {entries[i].target};
          observed := observed - {entries[i].target};
        }
        i := i + 1;
      }
      assert entries[..i] == entries;
    }
  }

  /**
   * One shot: an element that became visible is no longer observed, so no
   * later batch can report it, and it never loses the class.
   */
  lemma OnceVisibleNeverObserved(observed: set<nat>, visible: set<nat>, targets: set<nat>, entries: seq<Entry>, t: nat)
    requires observed !! visible && observed + visible == targets
    requires forall i :: 0 <= i < |entries| ==> entries[i].target in observed
    requires t in visible
    ensures forall i :: 0 <= i < |entries| ==> entries[i].target != t
    ensures t in visible + Hits(entries)
  {
  }
}
