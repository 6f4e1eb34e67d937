/** Whether the "Undo last rollover" command is offered.  Undo is allowed
    while there is a history entry and the whole seconds elapsed since the
    last rollover, as moment's `diff(..., 'seconds')` counts them
    (truncating towards zero), are at most 120. */
module Undo {
  /** Milliseconds to whole seconds, truncating towards zero like
      moment's `diff`. */
  function WholeSeconds(ms: int): int {
    if ms >= 0 then ms / 1000 else -((-ms) / 1000)
  }

  /** The longest gap for which undo is still allowed, in whole seconds. */
  const UndoWindowSeconds: int := 2 * 60

  /** The command's check callback: whether undo is enabled, and whether
      the undo dialog opens (only when not merely checking). */
  datatype UndoCheck = UndoCheck(enabled: bool, opensDialog: bool)

  function CheckUndo<T>(history: seq<T>, elapsedMs: int, checking: bool): UndoCheck {
    if |history| > 0 then
      if WholeSeconds(elapsedMs) > UndoWindowSeconds then UndoCheck(false, false)
      else UndoCheck(true, !checking)
    else UndoCheck(false, false)
  }

  /** Truncation makes the window 121 seconds long, to the millisecond; a
      clock that went backwards never closes it. */
  lemma UndoWindowIsUnder121Seconds<T>(history: seq<T>, elapsedMs: int, checking: bool)
    ensures CheckUndo(history, elapsedMs, checking).enabled <==> |history| > 0 && elapsedMs < 121000
    ensures CheckUndo(history, elapsedMs, checking).opensDialog <==>
      CheckUndo(history, elapsedMs, checking).enabled && !checking
  {
    if elapsedMs >= 0 {
      assert WholeSeconds(elapsedMs) > 120 <==> elapsedMs >= 121000;
    } else {
      assert WholeSeconds(elapsedMs) <= 0;
    }
  }

  /** Whole seconds never exceed the elapsed time in magnitude and lose
      less than one second. */
  lemma WholeSecondsTruncates(ms: int)
    ensures ms >= 0 ==> 0 <= ms - 1000 * WholeSeconds(ms) < 1000
    ensures ms < 0 ==> -1000 < ms - 1000 * WholeSeconds(ms) <= 0
  {
  }
}
