/**
 * The hamburger menu of the navigation (assets/js/components.js, lines 39-48):
 * the `open` class of the nav container, the `open` class of the toggle
 * control and the toggle's `aria-expanded` attribute.
 */
module Toggle {
  import opened Wrappers

  datatype ToggleState = ToggleState(navOpen: bool, toggleOpen: bool, ariaExpanded: Option<string>)

  /** How `setAttribute` renders a boolean. */
  function BoolText(b: bool): string
  {
    if b then "true" else "false"
  }

  /** The toggle control and its accessibility attribute agree with the nav container. */
  predicate Mirrored(t: ToggleState)
  {
    t.toggleOpen == t.navOpen && t.ariaExpanded == Some(BoolText(t.navOpen))
  }

  /**
   * One run of the click listener: the nav's `open` class flips and the new
   * value is copied onto the toggle's class and `aria-expanded`.
   */
  function RunListener(t: ToggleState): (r: ToggleState)
    ensures r.navOpen == !t.navOpen
    ensures Mirrored(r)
  {
    var open := !t.navOpen;
    ToggleState(open, open, Some(BoolText(open)))
  }

  /** One click on the toggle with `listeners` click listeners installed, run in order. */
  function Dispatch(t: ToggleState, listeners: nat): (r: ToggleState)
    ensures listeners > 0 ==> Mirrored(r)
    decreases listeners
  {
    if listeners == 0 then t else Dispatch(RunListener(t), listeners - 1)
  }

  /** Running the listeners one at a time: one more listener is one more run. */
  lemma {:induction false} DispatchStep(t: ToggleState, k: nat)
    ensures Dispatch(t, k + 1) == RunListener(Dispatch(t, k))
    decreases k
  {
    if k > 0 {
      DispatchStep(RunListener(t), k - 1);
    }
  }

  /** Two clicks give the nav back its state; from a mirrored state they change nothing. */
  lemma ClickTwice(t: ToggleState)
    ensures RunListener(RunListener(t)).navOpen == t.navOpen
    ensures Mirrored(t) ==> RunListener(RunListener(t)) == t
  {
  }

  /**
   * With no listener a click changes nothing; otherwise the nav flips once per
   * listener and the toggle mirrors the outcome.
   */
  lemma {:induction false} DispatchEffect(t: ToggleState, listeners: nat)
    ensures listeners == 0 ==> Dispatch(t, listeners) == t
    ensures listeners > 0 ==>
      && Mirrored(Dispatch(t, listeners))
      && Dispatch(t, listeners).navOpen == (t.navOpen != (listeners % 2 == 1))
    decreases listeners
  {
    if listeners > 1 {
      DispatchEffect(RunListener(t), listeners - 1);
    }
  }

  /** Two clicks on the toggle give the nav back its state, however many listeners it carries. */
  lemma {:induction false} DispatchTwice(t: ToggleState, listeners: nat)
    ensures Dispatch(Dispatch(t, listeners), listeners).navOpen == t.navOpen
  {
    DispatchEffect(t, listeners);
    DispatchEffect(Dispatch(t, listeners), listeners);
  }

  /**
   * Example: from a closed menu one click opens the nav and the
   * toggle and sets `aria-expanded` to "true"; a second click reverses all three.
   */
  lemma ClickExample()
    ensures RunListener(ToggleState(false, false, Some("false"))) == ToggleState(true, true, Some("true"))
    ensures RunListener(ToggleState(true, true, Some("true"))) == ToggleState(false, false, Some("false"))
  {
  }
}
