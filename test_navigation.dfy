/**
 * The navigation bar under a question: the keyboard shortcuts it listens
 * for and the rules that disable its Previous, Next and Submit buttons.
 * The callbacks are reduced to the action they would run.
 */
module TestNavigation {

  /** The inputs the bar reads. */
  datatype Props = Props(
    canGoPrevious: bool,
    canGoNext: bool,
    isLastQuestion: bool,
    isAnswerSelected: bool,
    isSubmitting: bool,
    disabled: bool)

  datatype KeyEvent = KeyEvent(key: string, ctrlKey: bool, shiftKey: bool)

  /** The callback a key press runs, if any. */
  datatype Action = NoAction | Previous | Next | Submit

  /** What handling one key press does: the callback run and whether the browser default is suppressed. */
  datatype Outcome = Outcome(action: Action, preventDefault: bool)

  const Ignored: Outcome := Outcome(NoAction, false)

  /**
   * `handleKeyDown`: a key press runs a callback only with the default
   * suppressed, never while disabled or submitting, and submits only on the
   * last question with an answer selected.
   */
  function HandleKeyDown(p: Props, e: KeyEvent): (o: Outcome)
    ensures o.action != NoAction ==> o.preventDefault
    ensures o.preventDefault ==> !p.disabled && !p.isSubmitting
    ensures o.action == Submit ==> p.isLastQuestion && p.isAnswerSelected
    ensures o.action == Next ==> !p.isLastQuestion && p.canGoNext && p.isAnswerSelected
  {
    if p.disabled || p.isSubmitting then Ignored
    else if e.key == "ArrowLeft" then
      if p.canGoPrevious && e.ctrlKey then Outcome(Previous, true) else Ignored
    else if e.key == "ArrowRight" then
      if p.canGoNext && p.isAnswerSelected && e.ctrlKey then
        Outcome(if p.isLastQuestion then Submit else Next, true)
      else Ignored
    else if e.key == "Enter" then
      if p.isAnswerSelected && !e.shiftKey then
        Outcome(if p.isLastQuestion then Submit else if p.canGoNext then Next else NoAction, true)
      else Ignored
    else Ignored
  }

  /** While disabled or submitting, no key does anything. */
  lemma InertWhileBusy(p: Props, e: KeyEvent)
    requires p.disabled || p.isSubmitting
    ensures HandleKeyDown(p, e) == Ignored
  {
  }

  /** Only Ctrl+ArrowLeft goes back, and only when going back is possible. */
  lemma PreviousRule(p: Props, e: KeyEvent)
    ensures HandleKeyDown(p, e).action == Previous <==>
      !p.disabled && !p.isSubmitting && e.key == "ArrowLeft" && e.ctrlKey && p.canGoPrevious
  {
  }

  /** Ctrl+ArrowRight acts only with an answer selected and a next question available. */
  lemma ArrowRightRule(p: Props, e: KeyEvent)
    requires e.key == "ArrowRight"
    ensures HandleKeyDown(p, e).action != NoAction <==>
      !p.disabled && !p.isSubmitting && e.ctrlKey && p.canGoNext && p.isAnswerSelected
    ensures HandleKeyDown(p, e).action != Previous
  {
  }

  /**
   * With the session's flags, where a next question exists exactly when the
   * current one is not the last, Ctrl+ArrowRight never submits.
   */
  lemma ArrowRightNeverSubmits(p: Props, e: KeyEvent)
    requires p.canGoNext == !p.isLastQuestion
    requires e.key == "ArrowRight"
    ensures HandleKeyDown(p, e).action != Submit
  {
  }

  /**
   * Enter without Shift and with an answer selected submits on the last
   * question, else moves on when it can; it suppresses the default even when
   * it does neither.
   */
  lemma EnterRule(p: Props, e: KeyEvent)
    requires e.key == "Enter"
    ensures HandleKeyDown(p, e).preventDefault <==> !p.disabled && !p.isSubmitting && p.isAnswerSelected && !e.shiftKey
    ensures HandleKeyDown(p, e).action == Submit <==> HandleKeyDown(p, e).preventDefault && p.isLastQuestion
    ensures HandleKeyDown(p, e).action == Next <==> HandleKeyDown(p, e).preventDefault && !p.isLastQuestion && p.canGoNext
  {
  }

  /** Every other key is ignored. */
  lemma OtherKeysIgnored(p: Props, e: KeyEvent)
    requires e.key != "ArrowLeft" && e.key != "ArrowRight" && e.key != "Enter"
    ensures HandleKeyDown(p, e) == Ignored
  {
  }

  /** Previous is disabled without a previous question, or while disabled or submitting. */
  predicate PreviousDisabled(p: Props)
    ensures p.disabled || p.isSubmitting ==> PreviousDisabled(p)
    ensures !p.canGoPrevious ==> PreviousDisabled(p)
  {
    !p.canGoPrevious || p.disabled || p.isSubmitting
  }

  /** Submit (shown on the last question) is disabled without an answer, or while disabled or submitting. */
  predicate SubmitDisabled(p: Props)
    ensures p.disabled || p.isSubmitting ==> SubmitDisabled(p)
    ensures !p.isAnswerSelected ==> SubmitDisabled(p)
  {
    !p.isAnswerSelected || p.disabled || p.isSubmitting
  }

  /** Next (shown elsewhere) is disabled without an answer or a next question, or while disabled or submitting. */
  predicate NextDisabled(p: Props)
    ensures p.disabled || p.isSubmitting ==> NextDisabled(p)
    ensures SubmitDisabled(p) ==> NextDisabled(p)
  {
    !p.isAnswerSelected || !p.canGoNext || p.disabled || p.isSubmitting
  }

  /**
   * A shortcut only runs what a visible, enabled button would run: Previous
   * when that button is enabled, Submit on the last question when Submit is
   * enabled, Next elsewhere when Next is enabled.
   */
  lemma ShortcutsAgreeWithButtons(p: Props, e: KeyEvent)
    ensures HandleKeyDown(p, e).action == Previous ==> !PreviousDisabled(p)
    ensures HandleKeyDown(p, e).action == Submit ==> p.isLastQuestion && !SubmitDisabled(p)
    ensures HandleKeyDown(p, e).action == Next ==> !p.isLastQuestion && !NextDisabled(p)
  {
  }
}
