/** The start menu of src/components/main-view.tsx: the accumulated total
    shown as hours and minutes, the preset table behind Cmd+1..Cmd+4, and the
    four start buttons. */
module MainView {
  import Time
  import opened Wrappers
  import opened Timer
  import TimerView

  // ---------------------------------------------------------------------
  // Total display (src/components/main-view.tsx:46-49)
  // ---------------------------------------------------------------------

  /** The footer's two fields: whole hours and remaining minutes, each
      `toString().padStart(2, '0')`. */
  function TotalDisplay(totalMinutes: nat): (string, string)
  {
    (Time.Pad2(totalMinutes / 60), Time.Pad2(totalMinutes % 60))
  }

  /** The two fields denote hours and minutes that recompose the total, the
      minutes below 60; both are zero-padded to at least two digits, the
      minute field to exactly two. */
  lemma TotalDisplaySplit(totalMinutes: nat)
    ensures var (hf, mf) := TotalDisplay(totalMinutes);
      && Time.AllDigits(hf) && Time.AllDigits(mf)
      && |hf| >= 2 && |mf| == 2
      && Time.DigitsValue(hf) * 60 + Time.DigitsValue(mf) == totalMinutes
      && Time.DigitsValue(mf) < 60
  {
    Time.Pad2Field(totalMinutes / 60);
    Time.Pad2Field(totalMinutes % 60);
  }

  // ---------------------------------------------------------------------
  // Presets and the Cmd+number shortcut (src/components/main-view.tsx:52-93)
  // ---------------------------------------------------------------------

  datatype TimerSet = TimerSet(mode: Mode, minutes: nat)

  /** The `presets` record: a focus session followed by a five-minute rest. */
  const Presets: map<string, seq<TimerSet>> := map[
    "1" := [TimerSet(Focus, 5), TimerSet(Rest, 5)],
    "2" := [TimerSet(Focus, 15), TimerSet(Rest, 5)],
    "3" := [TimerSet(Focus, 30), TimerSet(Rest, 5)],
    "4" := [TimerSet(Focus, 60), TimerSet(Rest, 5)]
  ]

  /** The arguments of one `onStart(minutes, mode)` call. */
  datatype StartRequest = StartRequest(minutes: nat, mode: Mode)

  /** The first entry of a preset, if the key names one. */
  function PresetStart(key: string): Option<StartRequest>
  {
    if key in Presets && |Presets[key]| > 0
    then Some(StartRequest(Presets[key][0].minutes, Presets[key][0].mode))
    else None
  }

  /** Cmd held without Ctrl, Alt or Shift. */
  predicate IsMetaOnly(e: TimerView.KeyEvent)
  {
    e.metaKey && !e.ctrlKey && !e.altKey && !e.shiftKey
  }

  /** `handleKeyDown`: the `onStart` call a key press makes, if any;
      `hasFocus` is `document.hasFocus()`. */
  function MenuKeyStart(hasFocus: bool, e: TimerView.KeyEvent): Option<StartRequest>
  {
    if !hasFocus || !IsMetaOnly(e) then None else PresetStart(e.key)
  }

  /** Keys 1 to 4 start focus sessions of 5, 15, 30 and 60 minutes; no other
      key starts anything. */
  lemma PresetTable(key: string)
    ensures key == "1" ==> PresetStart(key) == Some(StartRequest(5, Focus))
    ensures key == "2" ==> PresetStart(key) == Some(StartRequest(15, Focus))
    ensures key == "3" ==> PresetStart(key) == Some(StartRequest(30, Focus))
    ensures key == "4" ==> PresetStart(key) == Some(StartRequest(60, Focus))
    ensures key != "1" && key != "2" && key != "3" && key != "4" ==> PresetStart(key) == None
    ensures PresetStart(key).Some? ==> PresetStart(key).value.mode == Focus
  {
  }

  /** A key press starts a session only when the document has focus, Cmd is
      the only modifier and the key names a preset; it then starts exactly
      that preset's first entry. */
  lemma MenuKeyFilter(hasFocus: bool, e: TimerView.KeyEvent)
    ensures MenuKeyStart(hasFocus, e).Some? <==> hasFocus && IsMetaOnly(e) && e.key in Presets
    ensures MenuKeyStart(hasFocus, e).Some? ==> MenuKeyStart(hasFocus, e) == PresetStart(e.key)
  {
    PresetTable(e.key);
  }

  // ---------------------------------------------------------------------
  // The start buttons (src/components/main-view.tsx:134-158)
  // ---------------------------------------------------------------------

  /** A `TimeButton`: the minutes on its label and the preset its click
      handler reads. */
  datatype TimeButton = TimeButton(minutes: nat, presetKey: string)

  const Buttons: seq<TimeButton> := [
    TimeButton(5, "1"), TimeButton(15, "2"), TimeButton(30, "3"), TimeButton(60, "4")
  ]

  /** The `onStart` call button `i` makes: `presets[key][0]`. */
  function ButtonClick(i: nat): StartRequest
    requires i < |Buttons|
  {
    var first := Presets[Buttons[i].presetKey][0];
    StartRequest(first.minutes, first.mode)
  }

  /** Clicking button `i` makes the same `onStart` call as pressing Cmd with
      its digit, and starts as many minutes as its label shows. */
  lemma ButtonMatchesShortcut(i: nat, e: TimerView.KeyEvent)
    requires i < |Buttons|
    requires IsMetaOnly(e) && e.key == Buttons[i].presetKey
    ensures MenuKeyStart(true, e) == Some(ButtonClick(i))
    ensures ButtonClick(i).minutes == Buttons[i].minutes && ButtonClick(i).mode == Focus
  {
    PresetTable(e.key);
  }

  /** Starting from the menu: the controller enters a full, running focus
      countdown of the preset's length. */
  lemma MenuStartsFocusCountdown(s: TimerState, hasFocus: bool, e: TimerView.KeyEvent)
    requires MenuKeyStart(hasFocus, e).Some?
    ensures var req := MenuKeyStart(hasFocus, e).value;
      var r := StartStep(s, req.minutes, req.mode);
      && r.view == Focus && r.running
      && r.remainingSeconds == req.minutes * 60
      && req.minutes in {5, 15, 30, 60}
  {
    PresetTable(e.key);
  }
}
