/**
 * The hero-slogan typing effect, as a chain of timer callbacks over an
 * explicit clock measured from page setup. The slogan text is captured and
 * cleared, a caret (right border) is shown, and one character is appended per
 * tick: the first tick is due after 1000 ms, every later one 50 ms after the
 * previous tick ran. The tick that finds nothing left to type schedules the
 * caret's removal 1000 ms after it ran. A callback may run later than it is
 * due; the delay it was run with carries over to everything after it.
 */
module TypingEffect {

  const FirstDelay := 1000
  const CharDelay := 50
  const CaretLinger := 1000

  /** The one timer callback pending at any time. */
  datatype Next = TypeAt(at: int) | RemoveCaretAt(at: int) | Finished

  /** Due time of the tick that finds `k` characters already typed. */
  function TickTime(k: nat): int {
    FirstDelay + CharDelay * k
  }

  class Typewriter {
    /** The slogan's original text. */
    const text: string
    /** The slogan's current `textContent`. */
    var shown: string
    /** Whether the caret border is set. */
    var caret: bool
    /** The closure's counter `i`. */
    var i: nat
    var next: Next
    /** How much later than due the callbacks so far have run, in total. */
    ghost var lateness: nat

    /**
     * After `i` ticks the slogan shows the first `i` characters. Pending
     * callbacks are due on the schedule shifted by the lateness so far: when
     * every tick runs when due, the final check is at `TickTime(|text|)` and
     * the caret goes `CaretLinger` later (at 2000 ms for an empty text).
     */
    ghost predicate Valid()
      reads this
    {
      && i <= |text|
      && shown == text[..i]
      && match next
         case TypeAt(at) => caret && at == TickTime(i) + lateness
         case RemoveCaretAt(at) => caret && i == |text| && at == TickTime(|text|) + lateness + CaretLinger
         case Finished => !caret && i == |text|
    }

    /** Setup: capture and clear the text, show the caret, schedule the first tick. */
    constructor (text: string)
      ensures Valid() && this.text == text
      ensures shown == "" && caret && i == 0 && next == TypeAt(FirstDelay) && lateness == 0
    {
      this.text := text;
      shown := "";
      caret := true;
      i := 0;
      next := TypeAt(FirstDelay);
      lateness := 0;
    }

    /** The pending callback runs at time `t`, at or after it is due; the next one is scheduled from `t`. */
    method Fire(t: int)
      requires Valid() && !next.Finished? && next.at <= t
      modifies this
      ensures Valid()
      ensures old(next).TypeAt? ==> lateness == old(lateness) + (t - old(next).at)
      ensures old(next).TypeAt? && old(i) < |text| ==>
        shown == old(shown) + [text[old(i)]] && i == old(i) + 1 && caret && next == TypeAt(t + CharDelay)
      ensures old(next).TypeAt? && old(i) == |text| ==>
        shown == old(shown) && caret && next == RemoveCaretAt(t + CaretLinger)
      ensures old(next).RemoveCaretAt? ==> shown == old(shown) && !caret && next == Finished
    {
      match next
      case TypeAt(at) =>
        lateness := lateness + (t - at);
        if i < |text| {
          assert text[..i + 1] == text[..i] + [text[i]];
          shown := shown + [text[i]];
          i := i + 1;
          next := TypeAt(t + CharDelay);
        } else {
          next := RemoveCaretAt(t + CaretLinger);
        }
      case RemoveCaretAt(_) =>
        caret := false;
        next := Finished;
    }
  }

  /**
   * Typing "ab" with every callback on time: the ticks run at 1000, 1050 and
   * 1100 ms, and the caret goes at 2100 ms = 1000 + 50·2 + 1000.
   */
  method OnTimeSchedule() returns (w: Typewriter)
    ensures w.Valid() && w.shown == "ab" && !w.caret && w.next == Finished
  {
    w := new Typewriter("ab");
    w.Fire(1000);
    w.Fire(1050);
    w.Fire(1100);
    assert w.next == RemoveCaretAt(2100);
    w.Fire(2100);
  }

  /** A late tick delays the rest: run at 1200 instead of 1000, the next tick is due at 1250. */
  method LateTickShiftsSchedule() returns (w: Typewriter)
    ensures w.Valid() && w.shown == "a" && w.next == TypeAt(1250)
  {
    w := new Typewriter("ab");
    w.Fire(1200);
  }

  /** An empty slogan: the first tick, at 1000 ms, finds nothing to type, and the caret goes at 2000 ms. */
  method EmptySlogan() returns (w: Typewriter)
    ensures w.Valid() && w.shown == "" && w.caret && w.next == RemoveCaretAt(2000)
  {
    w := new Typewriter("");
    w.Fire(1000);
  }
}
