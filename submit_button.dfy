/**
 * The contact form's submit handler: the submit button shows a spinner label
 * and is disabled, and a timer 3000 ms later restores the label captured at
 * submit time and re-enables it. Time is an explicit clock.
 */
module SubmitButton {

  const SendingLabel := "<i class=\"fas fa-spinner fa-spin\"></i> Sending..."
  const RestoreDelay := 3000

  /** A pending restore timer and the label it will write back. */
  datatype Restore = Restore(due: int, html: string)

  class Button {
    var innerHtml: string
    var disabled: bool
    /** Pending restore timers, in the order they fire. */
    var pending: seq<Restore>
    /** Time of the latest event. */
    var now: int

    ghost predicate Valid()
      reads this
    {
      && (forall k :: 0 < k < |pending| ==> pending[k - 1].due <= pending[k].due)
      && (pending != [] ==> pending[|pending| - 1].due <= now + RestoreDelay)
    }

    constructor (html: string, start: int)
      ensures Valid() && innerHtml == html && !disabled && pending == [] && now == start
    {
      innerHtml := html;
      disabled := false;
      pending := [];
      now := start;
    }

    /** The submit listener at time `t`. */
    method OnSubmit(t: int)
      requires Valid() && now <= t
      modifies this
      ensures Valid() && now == t
      ensures innerHtml == SendingLabel && disabled
      ensures pending == old(pending) + [Restore(t + RestoreDelay, old(innerHtml))]
    {
      var originalText := innerHtml;
      now := t;
      innerHtml := SendingLabel;
      disabled := true;
      pending := pending + [Restore(t + RestoreDelay, originalText)];
    }

    /** The earliest restore timer fires at time `t`. */
    method FireRestore(t: int)
      requires Valid() && pending != [] && now <= t && pending[0].due <= t
      modifies this
      ensures Valid() && now == t
      ensures innerHtml == old(pending)[0].html && !disabled && pending == old(pending)[1..]
    {
      now := t;
      innerHtml := pending[0].html;
      disabled := false;
      pending := pending[1..];
    }
  }

  /** One submit: exactly 3000 ms later the button is back to its label and enabled. */
  method SubmitThenRestore(b: Button, t: int)
    requires b.Valid() && b.pending == [] && b.now <= t
    modifies b
    ensures b.innerHtml == old(b.innerHtml) && !b.disabled && b.pending == [] && b.now == t + RestoreDelay
  {
    b.OnSubmit(t);
    b.FireRestore(t + RestoreDelay);
  }

  /**
   * A second submit within 3000 ms captures the spinner label: once both
   * timers have fired the button is enabled but keeps showing the spinner.
   */
  method DoubleSubmitLosesLabel(b: Button, t1: int, t2: int)
    requires b.Valid() && b.pending == [] && b.now <= t1 <= t2 < t1 + RestoreDelay
    modifies b
    ensures b.innerHtml == SendingLabel && !b.disabled && b.pending == []
  {
    b.OnSubmit(t1);
    b.OnSubmit(t2);
    b.FireRestore(t1 + RestoreDelay);
    b.FireRestore(t2 + RestoreDelay);
  }
}
