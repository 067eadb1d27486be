/** The exit door (Door.Open): a latch that sets the animator's "Open"
    trigger the first time only. */
module Doors {

  /** `isOpen` is the `opened` flag; `triggers` counts the "Open" triggers set on the animator so far. */
  datatype Door = Door(isOpen: bool, hasAnimator: bool, triggers: nat)

  /** Open: nothing once open; otherwise latch the flag, and set the
      trigger when there is an animator. */
  function Open(d: Door): (r: Door)
    ensures r.isOpen && r.hasAnimator == d.hasAnimator
    ensures d.isOpen ==> r == d
    ensures !d.isOpen && d.hasAnimator ==> r.triggers == d.triggers + 1
    ensures !d.isOpen && !d.hasAnimator ==> r.triggers == d.triggers
  {
    if d.isOpen then d
    else
      var latched := d.(isOpen := true);
      if d.hasAnimator then latched.(triggers := d.triggers + 1) else latched
  }

  /** The door after `n` calls of Open. */
  function OpenN(d: Door, n: nat): Door {
    if n == 0 then d else Open(OpenN(d, n - 1))
  }

  /** Open is idempotent. */
  lemma OpenIdempotent(d: Door)
    ensures Open(Open(d)) == Open(d)
  {
  }

  /** Over any number of calls, the trigger is set at most once; a door
      that was already open never changes. */
  lemma {:induction false} OpenAtMostOnce(d: Door, n: nat)
    ensures OpenN(d, n).triggers <= d.triggers + 1
    ensures d.isOpen ==> OpenN(d, n) == d
    ensures n > 0 ==> OpenN(d, n) == Open(d)
  {
    if n > 1 {
      OpenAtMostOnce(d, n - 1);
      OpenIdempotent(d);
    }
  }

  /** From a closed door with an animator, the trigger count after n calls
      is exactly 1 when n > 0; without an animator the door still latches. */
  lemma OpenFromClosed(d: Door, n: nat)
    requires !d.isOpen && d.triggers == 0 && n > 0
    ensures OpenN(d, n).isOpen
    ensures OpenN(d, n).triggers == (if d.hasAnimator then 1 else 0)
  {
    OpenAtMostOnce(d, n);
  }
}
