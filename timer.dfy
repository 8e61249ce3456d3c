/** The session controller of src/hooks/use-timer.ts: the single-timer
    `useTimer` hook. Its five pieces of React state become the fields of
    `TimerController`; every operation is a method that updates them in
    place. The pure function `XxxStep` next to each method says what the
    new state is in terms of the old one, and the lemmas at the end state
    what the hook promises about those steps. */
module Timer {

  /** The screen the app shows: the start menu, a focus countdown or a rest
      countdown. */
  datatype View = Select | Focus | Rest

  /** The `mode` argument of `start`: typed `'focus' | 'rest'` in the source. */
  type Mode = v: View | v != Select witness Focus

  /** A snapshot of the controller's state. `windowRequests` counts the
      `showWindow()` requests the controller has issued. */
  datatype TimerState = TimerState(
    view: View,
    totalMinutes: int,
    runningMinutes: int,
    remainingSeconds: int,
    running: bool,
    windowRequests: nat)

  // ---------------------------------------------------------------------
  // The operations as transitions on snapshots
  // ---------------------------------------------------------------------

  const Initial := TimerState(Select, 0, 0, 0, false, 0)

  function StartStep(s: TimerState, minutes: int, mode: Mode): TimerState
  {
    s.(view := mode, runningMinutes := minutes, remainingSeconds := minutes * 60, running := true)
  }

  function PauseStep(s: TimerState): TimerState
  {
    s.(running := false)
  }

  function ResumeStep(s: TimerState): TimerState
  {
    s.(running := true)
  }

  /** The minutes `cancel` credits to the total:
      `runningMinutes - Math.floor(remainingSeconds / 60)`. Dafny's `/` with
      a positive divisor rounds toward negative infinity, as `Math.floor`
      does, also for a negative `remainingSeconds`. */
  function CancelCredit(s: TimerState): int
  {
    s.runningMinutes - s.remainingSeconds / 60
  }

  /** `_resetRunning`: stop and clear the running timer. */
  function ResetRunningStep(s: TimerState): TimerState
  {
    s.(running := false, runningMinutes := 0, remainingSeconds := 0)
  }

  /** `cancel`: back to the menu; a focus session credits its partially
      elapsed minutes first. The view tested is the one before the call. */
  function CancelStep(s: TimerState): TimerState
  {
    var credited := if s.view == Focus then s.totalMinutes + CancelCredit(s) else s.totalMinutes;
    ResetRunningStep(s.(view := Select, totalMinutes := credited))
  }

  /** `complete`: a focus session adds all its minutes; either way the app
      returns to the menu and asks for its window to be shown. */
  function CompleteStep(s: TimerState): TimerState
  {
    var credited := if s.view == Focus then s.totalMinutes + s.runningMinutes else s.totalMinutes;
    var r := ResetRunningStep(s.(view := Select, totalMinutes := credited));
    r.(windowRequests := r.windowRequests + 1)
  }

  function UpdateStep(s: TimerState, seconds: int): TimerState
  {
    s.(remainingSeconds := seconds)
  }

  function ResetStep(s: TimerState): TimerState
  {
    s.(totalMinutes := 0)
  }

  // ---------------------------------------------------------------------
  // The controller object
  // ---------------------------------------------------------------------

  class TimerController {
    var view: View
    var totalMinutes: int
    var runningMinutes: int
    var remainingSeconds: int
    var running: bool
    var windowRequests: nat

    function State(): TimerState
      reads this
    {
      TimerState(view, totalMinutes, runningMinutes, remainingSeconds, running, windowRequests)
    }

    /** The hook's initial state (src/hooks/use-timer.ts:16-21). */
    constructor ()
      ensures State() == Initial
      ensures view == Select && totalMinutes == 0 && runningMinutes == 0
      ensures remainingSeconds == 0 && !running && windowRequests == 0
    {
      view := Select;
      totalMinutes := 0;
      runningMinutes := 0;
      remainingSeconds := 0;
      running := false;
      windowRequests := 0;
    }

    method Start(minutes: int, mode: Mode)
      modifies this
      ensures State() == StartStep(old(State()), minutes, mode)
    {
      view := mode;
      runningMinutes := minutes;
      remainingSeconds := minutes * 60;
      running := true;
    }

    method Pause()
      modifies this
      ensures State() == PauseStep(old(State()))
    {
      running := false;
    }

    method Resume()
      modifies this
      ensures State() == ResumeStep(old(State()))
    {
      running := true;
    }

    method Cancel()
      modifies this
      ensures State() == CancelStep(old(State()))
    {
      var wasFocus := view == Focus;
      view := Select;
      if wasFocus {
        var focusedMinutes := runningMinutes - remainingSeconds / 60;
        totalMinutes := totalMinutes + focusedMinutes;
      }
      ResetRunning();
    }

    /** Completes the session; the `showWindow()` request it issues is
        recorded by incrementing `windowRequests`. */
    method Complete()
      modifies this
      ensures State() == CompleteStep(old(State()))
    {
      if view == Focus {
        totalMinutes := totalMinutes + runningMinutes;
      }
      view := Select;
      ResetRunning();
      windowRequests := windowRequests + 1;
    }

    method ResetRunning()
      modifies this
      ensures State() == ResetRunningStep(old(State()))
    {
      running := false;
      runningMinutes := 0;
      remainingSeconds := 0;
    }

    method UpdateRemainingSeconds(seconds: int)
      modifies this
      ensures State() == UpdateStep(old(State()), seconds)
    {
      remainingSeconds := seconds;
    }

    method Reset()
      modifies this
      ensures State() == ResetStep(old(State()))
    {
      totalMinutes := 0;
    }
  }

  // ---------------------------------------------------------------------
  // What the controller promises
  // ---------------------------------------------------------------------

  /** The state every session keeps: a non-negative total and a countdown
      that lies between zero and the session's full length. */
  predicate Consistent(s: TimerState)
  {
    && s.totalMinutes >= 0
    && s.runningMinutes >= 0
    && 0 <= s.remainingSeconds <= s.runningMinutes * 60
  }

  /** `start` sets up a full, running countdown in the requested view and
      leaves the total and the window requests alone. */
  lemma StartSetsUpCountdown(s: TimerState, minutes: int, mode: Mode)
    ensures var r := StartStep(s, minutes, mode);
      && r.view == mode && r.running
      && r.runningMinutes == minutes && r.remainingSeconds == minutes * 60
      && r.totalMinutes == s.totalMinutes && r.windowRequests == s.windowRequests
      && (Consistent(s) && minutes >= 0 ==> Consistent(r))
  {
  }

  /** Pausing and resuming touch only the running flag, and undo each
      other. */
  lemma PauseResumeInverse(s: TimerState)
    ensures PauseStep(s).running == false && ResumeStep(s).running == true
    ensures PauseStep(s).(running := s.running) == s
    ensures ResumeStep(s).(running := s.running) == s
    ensures s.running ==> ResumeStep(PauseStep(s)) == s
    ensures !s.running ==> PauseStep(ResumeStep(s)) == s
  {
  }

  /** The idle state that `cancel` and `complete` return to. */
  predicate IsIdle(s: TimerState)
  {
    s.view == Select && !s.running && s.runningMinutes == 0 && s.remainingSeconds == 0
  }

  /** `complete` credits exactly the session's minutes in focus, nothing in
      rest, returns to the idle menu and issues exactly one window
      request. */
  lemma CompleteCreditsSession(s: TimerState)
    ensures var r := CompleteStep(s);
      && IsIdle(r)
      && r.totalMinutes == s.totalMinutes + (if s.view == Focus then s.runningMinutes else 0)
      && r.windowRequests == s.windowRequests + 1
      && (Consistent(s) ==> Consistent(r))
  {
  }

  /** `cancel` credits the partial focus minutes, returns to the idle menu
      and issues no window request. */
  lemma CancelCreditsPartial(s: TimerState)
    ensures var r := CancelStep(s);
      && IsIdle(r)
      && r.totalMinutes == s.totalMinutes + (if s.view == Focus then CancelCredit(s) else 0)
      && r.windowRequests == s.windowRequests
  {
  }

  /** The cancel credit is the elapsed time in whole minutes, rounded up,
      and so lies between zero and the session's length. */
  lemma CancelCreditBounds(s: TimerState)
    requires 0 <= s.remainingSeconds <= s.runningMinutes * 60
    ensures CancelCredit(s) == (s.runningMinutes * 60 - s.remainingSeconds + 59) / 60
    ensures 0 <= CancelCredit(s) <= s.runningMinutes
  {
    var q, r := s.remainingSeconds / 60, s.remainingSeconds % 60;
    assert s.remainingSeconds == 60 * q + r;
    var elapsed := s.runningMinutes * 60 - s.remainingSeconds;
    assert elapsed + 59 == 60 * (s.runningMinutes - q) + (59 - r);
    assert 0 <= 59 - r < 60;
  }

  /** Cancelling straight after `start` credits nothing. */
  lemma CancelAfterStartCreditsNothing(s: TimerState, minutes: int, mode: Mode)
    ensures CancelCredit(StartStep(s, minutes, mode)) == 0
    ensures CancelStep(StartStep(s, minutes, mode)).totalMinutes == s.totalMinutes
  {
    var t := StartStep(s, minutes, mode);
    assert t.remainingSeconds / 60 == minutes;
  }

  /** `cancel` keeps a consistent state consistent. */
  lemma CancelKeepsConsistent(s: TimerState)
    requires Consistent(s)
    ensures Consistent(CancelStep(s))
    ensures CancelStep(s).totalMinutes >= s.totalMinutes
  {
    CancelCreditBounds(s);
  }

  /** `reset` zeroes the total and nothing else; `updateRemainingSeconds`
      changes the countdown and nothing else. */
  lemma ResetAndUpdateFrame(s: TimerState, seconds: int)
    ensures ResetStep(s).totalMinutes == 0 && ResetStep(s).(totalMinutes := s.totalMinutes) == s
    ensures UpdateStep(s, seconds).remainingSeconds == seconds
    ensures UpdateStep(s, seconds).(remainingSeconds := s.remainingSeconds) == s
  {
  }

  // ---------------------------------------------------------------------
  // Sequences of calls
  // ---------------------------------------------------------------------

  /** A call into the hook's API. */
  datatype Call =
    | StartCall(minutes: int, mode: Mode)
    | PauseCall
    | ResumeCall
    | CancelCall
    | CompleteCall
    | UpdateCall(seconds: int)
    | ResetCall

  function Apply(s: TimerState, c: Call): TimerState
  {
    match c
    case StartCall(m, mode) => StartStep(s, m, mode)
    case PauseCall => PauseStep(s)
    case ResumeCall => ResumeStep(s)
    case CancelCall => CancelStep(s)
    case CompleteCall => CompleteStep(s)
    case UpdateCall(sec) => UpdateStep(s, sec)
    case ResetCall => ResetStep(s)
  }

  function Run(s: TimerState, calls: seq<Call>): TimerState
    decreases |calls|
  {
    if calls == [] then s else Run(Apply(s, calls[0]), calls[1..])
  }

  /** The calls the app makes: a session of non-negative length, and a
      countdown value within the running session. */
  predicate Admissible(s: TimerState, c: Call)
  {
    match c
    case StartCall(m, _) => m >= 0
    case UpdateCall(sec) => 0 <= sec <= s.runningMinutes * 60
    case _ => true
  }

  predicate AllAdmissible(s: TimerState, calls: seq<Call>)
    decreases |calls|
  {
    calls == [] || (Admissible(s, calls[0]) && AllAdmissible(Apply(s, calls[0]), calls[1..]))
  }

  lemma ApplyKeepsConsistent(s: TimerState, c: Call)
    requires Consistent(s) && Admissible(s, c)
    ensures Consistent(Apply(s, c))
    ensures !c.ResetCall? ==> Apply(s, c).totalMinutes >= s.totalMinutes
  {
    if c.CancelCall? {
      CancelKeepsConsistent(s);
    }
  }

  /** Every run of admissible calls from a consistent state stays
      consistent, and the total never decreases unless `reset` is among the
      calls. */
  lemma {:induction false} RunKeepsConsistent(s: TimerState, calls: seq<Call>)
    requires Consistent(s) && AllAdmissible(s, calls)
    ensures Consistent(Run(s, calls))
    ensures (forall i :: 0 <= i < |calls| ==> !calls[i].ResetCall?) ==>
              Run(s, calls).totalMinutes >= s.totalMinutes
    decreases |calls|
  {
    if calls != [] {
      ApplyKeepsConsistent(s, calls[0]);
      RunKeepsConsistent(Apply(s, calls[0]), calls[1..]);
      if forall i :: 0 <= i < |calls| ==> !calls[i].ResetCall? {
        assert forall i :: 0 <= i < |calls| - 1 ==> calls[1..][i] == calls[i + 1];
      }
    }
  }

  lemma InitialIsConsistent()
    ensures Consistent(Initial) && IsIdle(Initial) && Initial.totalMinutes == 0
  {
  }
}
