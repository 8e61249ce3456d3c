/** The countdown screen of src/components/timer-view.tsx: the tick effect
    that drives the controller one second at a time, its local copy of
    `formatTime`, and the keyboard dispatch (Escape, Space, Cmd+ArrowRight). */
module TimerView {
  import Time
  import opened Wrappers
  import opened Timer

  // ---------------------------------------------------------------------
  // The tick effect (src/components/timer-view.tsx:33-50)
  // ---------------------------------------------------------------------

  /** What the effect does for the current props: nothing, call
      `onComplete`, or schedule `updateRemainingSeconds(next)` one second
      later. */
  datatype TickAction = NoTick | CallComplete | ScheduleDecrement(next: int)

  function TickRule(isRunning: bool, remainingSeconds: int): (a: TickAction)
    ensures !isRunning ==> a == NoTick
    ensures isRunning && remainingSeconds <= 0 ==> a == CallComplete
    ensures isRunning && remainingSeconds > 0 ==> a == ScheduleDecrement(remainingSeconds - 1)
  {
    if !isRunning then NoTick
    else if remainingSeconds <= 0 then CallComplete
    else ScheduleDecrement(remainingSeconds - 1)
  }

  /** One second of the countdown screen wired to the controller: the
      props are the controller's `running` and `remainingSeconds`, and
      `onComplete` is its `complete`. */
  function TickStep(s: TimerState): TimerState
  {
    match TickRule(s.running, s.remainingSeconds)
    case NoTick => s
    case CallComplete => CompleteStep(s)
    case ScheduleDecrement(next) => UpdateStep(s, next)
  }

  /** The tick acting on a controller object. */
  method Tick(c: TimerController)
    modifies c
    ensures c.State() == TickStep(old(c.State()))
  {
    var action := TickRule(c.running, c.remainingSeconds);
    match action
    case NoTick =>
    case CallComplete =>
      c.Complete();
    case ScheduleDecrement(next) =>
      c.UpdateRemainingSeconds(next);
  }

  /** `k` consecutive ticks. */
  function Ticks(s: TimerState, k: nat): TimerState
    decreases k
  {
    if k == 0 then s else Ticks(TickStep(s), k - 1)
  }

  /** A single tick as the source states it: a stopped timer is left alone,
      a running one at zero completes, a running one above zero loses
      exactly one second and nothing else changes. */
  lemma TickCases(s: TimerState)
    ensures !s.running ==> TickStep(s) == s
    ensures s.running && s.remainingSeconds <= 0 ==> TickStep(s) == CompleteStep(s)
    ensures s.running && s.remainingSeconds > 0 ==>
              TickStep(s) == s.(remainingSeconds := s.remainingSeconds - 1)
  {
  }

  lemma {:induction false} TicksSplit(s: TimerState, a: nat, b: nat)
    ensures Ticks(s, a + b) == Ticks(Ticks(s, a), b)
    decreases a
  {
    if a > 0 {
      TicksSplit(TickStep(s), a - 1, b);
    }
  }

  /** Ticks on a stopped timer change nothing. */
  lemma {:induction false} TicksWhenStopped(s: TimerState, k: nat)
    requires !s.running
    ensures Ticks(s, k) == s
    decreases k
  {
    if k > 0 {
      TicksWhenStopped(TickStep(s), k - 1);
    }
  }

  /** A running timer counts down one second per tick, and nothing else
      changes, as long as it has seconds left. */
  lemma {:induction false} TicksCountDown(s: TimerState, k: nat)
    requires s.running && k <= s.remainingSeconds
    ensures Ticks(s, k) == s.(remainingSeconds := s.remainingSeconds - k)
    decreases k
  {
    if k > 0 {
      TicksCountDown(TickStep(s), k - 1);
    }
  }

  /** Ticks never drive the countdown below zero. */
  lemma {:induction false} TicksStayNonNegative(s: TimerState, k: nat)
    requires s.remainingSeconds >= 0
    ensures Ticks(s, k).remainingSeconds >= 0
    decreases k
  {
    if k > 0 {
      TicksStayNonNegative(TickStep(s), k - 1);
    }
  }

  /** A tick keeps the session invariant and never lowers the total. */
  lemma TickKeepsConsistent(s: TimerState)
    requires Consistent(s)
    ensures Consistent(TickStep(s)) && TickStep(s).totalMinutes >= s.totalMinutes
  {
  }

  /** Any number of ticks keep the session invariant, and the total never
      decreases while the countdown runs. */
  lemma {:induction false} TicksKeepConsistent(s: TimerState, k: nat)
    requires Consistent(s)
    ensures Consistent(Ticks(s, k)) && Ticks(s, k).totalMinutes >= s.totalMinutes
    decreases k
  {
    if k > 0 {
      TickKeepsConsistent(s);
      TicksKeepConsistent(TickStep(s), k - 1);
    }
  }

  /** A timer started for `m` minutes counts down through exactly `m * 60`
      decrements without completing; the tick that then sees zero completes
      the session, crediting `m` minutes to a focus session and issuing one
      window request; later ticks change nothing. */
  lemma StartedSessionCompletes(s0: TimerState, m: nat, mode: Mode, j: nat)
    ensures var s := StartStep(s0, m, mode);
      forall k :: 0 <= k <= m * 60 ==>
        && Ticks(s, k).running && Ticks(s, k).view == mode
        && Ticks(s, k).remainingSeconds == m * 60 - k
        && Ticks(s, k).totalMinutes == s0.totalMinutes
        && Ticks(s, k).windowRequests == s0.windowRequests
    ensures var r := Ticks(StartStep(s0, m, mode), m * 60 + 1);
      && IsIdle(r)
      && r.totalMinutes == s0.totalMinutes + (if mode == Focus then m else 0)
      && r.windowRequests == s0.windowRequests + 1
      && Ticks(StartStep(s0, m, mode), m * 60 + 1 + j) == r
  {
    var s := StartStep(s0, m, mode);
    forall k | 0 <= k <= m * 60
      ensures Ticks(s, k) == s.(remainingSeconds := m * 60 - k)
    {
      TicksCountDown(s, k);
    }
    var n := m * 60;
    TicksSplit(s, n, 1);
    var r := Ticks(s, n + 1);
    assert r == CompleteStep(s.(remainingSeconds := 0));
    TicksSplit(s, n + 1, j);
    TicksWhenStopped(r, j);
  }

  // ---------------------------------------------------------------------
  // The screen's own formatTime (src/components/timer-view.tsx:52-58)
  // ---------------------------------------------------------------------

  /** The component's memoised copy of `formatTime`. */
  function FormatTime(seconds: nat): string
  {
    var hours := seconds / 3600;
    var minutes := (seconds % 3600) / 60;
    var secs := seconds % 60;
    Time.Pad2(hours) + ":" + Time.Pad2(minutes) + ":" + Time.Pad2(secs)
  }

  /** The copy agrees with the library function on every input. */
  lemma FormatTimeAgreesWithLibrary(seconds: nat)
    ensures FormatTime(seconds) == Time.FormatTime(seconds)
    ensures Time.ParseTime(FormatTime(seconds)) == Some(seconds)
  {
    Time.FormatTimeRoundTrip(seconds);
  }

  // ---------------------------------------------------------------------
  // Keyboard dispatch (src/components/timer-view.tsx:60-96)
  // ---------------------------------------------------------------------

  /** The parts of a `KeyboardEvent` the handlers look at. */
  datatype KeyEvent = KeyEvent(
    key: string,
    code: string,
    metaKey: bool,
    ctrlKey: bool,
    altKey: bool,
    shiftKey: bool)

  /** The handler's decision: filtered out, cancel, pause-or-resume (the
      only case that calls `preventDefault`), or the recognised skip
      shortcut, which has no action. */
  datatype TimerKeyAction = Ignored | CancelTimer | TogglePause | SkipNoAction

  predicate IsSpace(e: KeyEvent) { e.code == "Space" || e.key == " " }

  predicate IsEscape(e: KeyEvent) { e.key == "Escape" || e.code == "Escape" }

  predicate IsSkip(e: KeyEvent) { e.metaKey && (e.key == "ArrowRight" || e.code == "ArrowRight") }

  /** `handleKeyDown`; `hasFocus` is `document.hasFocus()`. */
  function ClassifyTimerKey(hasFocus: bool, e: KeyEvent): TimerKeyAction
  {
    if !hasFocus then Ignored
    else if !IsSpace(e) && !IsEscape(e) && !IsSkip(e) then Ignored
    else if IsEscape(e) then CancelTimer
    else if IsSpace(e) then TogglePause
    else SkipNoAction
  }

  /** `handlePause` with the current `isRunning`: pause a running timer,
      otherwise resume. */
  function PauseToggle(isRunning: bool): Call
  {
    if isRunning then PauseCall else ResumeCall
  }

  /** `handlePause` as written: memoised with an empty dependency list, it
      keeps the `isRunning` of the first render (`runningAtMount`) and never
      sees the current one. */
  function PauseToggleAsWritten(runningAtMount: bool, isRunning: bool): Call
  {
    PauseToggle(runningAtMount)
  }

  /** The effect of a classified key on the controller. */
  function ApplyTimerKey(s: TimerState, a: TimerKeyAction): TimerState
  {
    match a
    case CancelTimer => CancelStep(s)
    case TogglePause => Apply(s, PauseToggle(s.running))
    case Ignored => s
    case SkipNoAction => s
  }

  /** The key handler acting on a controller object. */
  method HandleTimerKey(c: TimerController, hasFocus: bool, e: KeyEvent)
    modifies c
    ensures c.State() == ApplyTimerKey(old(c.State()), ClassifyTimerKey(hasFocus, e))
  {
    var action := ClassifyTimerKey(hasFocus, e);
    match action
    case CancelTimer =>
      c.Cancel();
    case TogglePause =>
      if c.running { c.Pause(); } else { c.Resume(); }
    case Ignored =>
    case SkipNoAction =>
  }

  /** Escape cancels, Space flips the running flag and nothing else,
      Cmd+ArrowRight passes the filter but does nothing, and every other key
      (and every key while the document is unfocused) is ignored. */
  lemma TimerKeyDispatch(s: TimerState, hasFocus: bool, e: KeyEvent)
    ensures var a := ClassifyTimerKey(hasFocus, e);
      var r := ApplyTimerKey(s, a);
      && (hasFocus && IsEscape(e) ==> a == CancelTimer && r == CancelStep(s) && IsIdle(r))
      && (hasFocus && IsSpace(e) && !IsEscape(e) ==>
            a == TogglePause && r.running == !s.running && r.(running := s.running) == s)
      && (hasFocus && IsSkip(e) && !IsSpace(e) && !IsEscape(e) ==> a == SkipNoAction && r == s)
      && (!hasFocus || (!IsSpace(e) && !IsEscape(e) && !IsSkip(e)) ==> a == Ignored && r == s)
  {
  }

  /** With the current `isRunning`, pressing Space twice restores the
      running flag. */
  lemma SpaceTwiceRestores(s: TimerState, e: KeyEvent)
    requires IsSpace(e) && !IsEscape(e)
    ensures ApplyTimerKey(ApplyTimerKey(s, ClassifyTimerKey(true, e)), ClassifyTimerKey(true, e)) == s
  {
  }

  /** The stale closure: the screen mounts with a running timer, so the
      memoised toggle always pauses. Once paused, Space (or the button)
      pauses again instead of resuming. */
  lemma StaleToggleNeverResumes(s: TimerState, isRunning: bool)
    requires !s.running
    ensures PauseToggleAsWritten(true, isRunning) == PauseCall
    ensures !Apply(s, PauseToggleAsWritten(true, s.running)).running
    ensures Apply(s, PauseToggle(s.running)).running
  {
  }
}
