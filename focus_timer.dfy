/**
 * The focus timer page: a countdown with a repeating alarm.
 *
 * The page keeps four state cells (`seconds`, `isActive`, `isAlarmPlaying`,
 * `alarmCount`).  Buttons change them directly; two effects react to every
 * change, each either arming an interval or making an immediate change of its
 * own.  Here the intervals' callbacks are the events `Tick` (every second) and
 * `AlarmTick` (every 1.5 seconds), and the immediate reactions of the effects
 * are `Settle`, which runs after every change.  `Step` is the whole
 * transition; `Enabled` says when an interval is armed or a button is shown.
 */
module FocusTimer {

  /** The default and "25 Min" duration, in seconds. */
  const Pomodoro := 25 * 60
  /** The "1 Hour" duration, in seconds. */
  const OneHour := 60 * 60
  /** How many alarm repeats make the alarm stop by itself. */
  const AlarmRepeats := 20

  datatype Snapshot = Snapshot(seconds: int, isActive: bool, isAlarmPlaying: bool, alarmCount: int)

  datatype Event =
    | Tick                               // the countdown interval fires
    | AlarmTick                          // the alarm interval fires
    | Toggle                             // the play/pause button
    | StopAlarm                          // the bell button shown while the alarm rings
    | Reset                              // the reset button
    | Quit                               // the close button
    | PresetPomodoro                     // "25 Min"
    | PresetHour                         // "1 Hour"
    | StartCustom(hours: int, minutes: int)  // "Set" in the custom form

  /** The state when the page opens. */
  const Initial := Snapshot(Pomodoro, false, false, 0)

  /** Seconds requested by the custom form; negative entries count as zero. */
  function CustomSeconds(hours: int, minutes: int): (total: int)
    ensures total >= 0 && total % 60 == 0
    ensures total > 0 <==> hours > 0 || minutes > 0
    ensures hours >= 0 && minutes >= 0 ==> total == hours * 3600 + minutes * 60
  {
    (if hours > 0 then hours else 0) * 3600 + (if minutes > 0 then minutes else 0) * 60
  }

  /**
   * The effects' immediate reactions: the alarm effect stops an alarm that has
   * repeated 20 times, and the countdown effect turns a countdown that is
   * active at zero into a ringing alarm.  React applies the two effects'
   * updates in declaration order, so the alarm's reaction comes first.
   */
  function Settle(s: Snapshot): (r: Snapshot)
    ensures r.seconds == s.seconds
    ensures r.alarmCount == (if s.alarmCount >= AlarmRepeats then 0 else s.alarmCount)
    ensures !(r.isActive && r.seconds == 0)
    ensures s.isActive && s.seconds == 0 ==> !r.isActive && r.isAlarmPlaying
    ensures !(s.isActive && s.seconds == 0) && s.alarmCount < AlarmRepeats ==> r == s
    ensures !(s.isActive && s.seconds == 0) && s.alarmCount >= AlarmRepeats ==> r == s.(isAlarmPlaying := false, alarmCount := 0)
  {
    var s1 := if s.alarmCount >= AlarmRepeats then s.(isAlarmPlaying := false, alarmCount := 0) else s;
    if s1.isActive && s1.seconds == 0 then s1.(isActive := false, isAlarmPlaying := true) else s1
  }

  /** One event followed by the effects' reactions. */
  function Step(s: Snapshot, e: Event): Snapshot
  {
    match e
    case Tick => Settle(s.(seconds := s.seconds - 1))
    case AlarmTick => Settle(s.(alarmCount := s.alarmCount + 1))
    case Toggle => Settle(s.(isActive := !s.isActive))
    case StopAlarm => Settle(s.(isAlarmPlaying := false, alarmCount := 0))
    case Reset => Settle(Snapshot(Pomodoro, false, false, 0))
    case Quit => Settle(Snapshot(0, false, false, 0))
    case PresetPomodoro => Settle(s.(seconds := Pomodoro, isActive := false))
    case PresetHour => Settle(s.(seconds := OneHour, isActive := false))
    case StartCustom(h, m) =>
      var total := CustomSeconds(h, m);
      if total > 0 then Settle(Snapshot(total, false, false, 0)) else s
  }

  /**
   * Whether the event can happen: an interval fires only while its effect
   * keeps it armed, and the page shows the play/pause button or the bell
   * button depending on whether the alarm rings.
   */
  predicate Enabled(s: Snapshot, e: Event)
  {
    match e
    case Tick => s.isActive && s.seconds > 0
    case AlarmTick => s.isAlarmPlaying && s.alarmCount < AlarmRepeats
    case Toggle => !s.isAlarmPlaying
    case StopAlarm => s.isAlarmPlaying
    case _ => true
  }

  /** The states the page can be in between events. */
  predicate Valid(s: Snapshot)
  {
    && s.seconds >= 0
    && 0 <= s.alarmCount < AlarmRepeats
    && (s.alarmCount > 0 ==> s.isAlarmPlaying)
    && (s.isAlarmPlaying ==> !s.isActive)
    && (s.isActive ==> s.seconds > 0)
  }

  /** The state after a run of events, one after another. */
  function Run(s: Snapshot, events: seq<Event>): Snapshot
    decreases |events|
  {
    if events == [] then s else Run(Step(s, events[0]), events[1..])
  }

  /** Every event of the run can happen when its turn comes. */
  predicate Possible(s: Snapshot, events: seq<Event>)
    decreases |events|
  {
    events == [] || (Enabled(s, events[0]) && Possible(Step(s, events[0]), events[1..]))
  }

  function Repeat(e: Event, n: nat): (r: seq<Event>)
    ensures |r| == n && forall i :: 0 <= i < n ==> r[i] == e
  {
    if n == 0 then [] else [e] + Repeat(e, n - 1)
  }

  // ---------------------------------------------------------------------
  // Lemmas

  lemma InitialIsValid()
    ensures Valid(Initial)
  {
  }

  /** Every event that can happen keeps the state valid; in particular `seconds` never goes negative. */
  lemma StepKeepsValid(s: Snapshot, e: Event)
    requires Valid(s) && Enabled(s, e)
    ensures Valid(Step(s, e))
  {
  }

  /**
   * A countdown tick takes exactly one second off; the tick that reaches zero
   * stops the countdown and starts the alarm with its count at zero.
   */
  lemma TickSpec(s: Snapshot)
    requires Valid(s) && Enabled(s, Tick)
    ensures Step(s, Tick).seconds == s.seconds - 1
    ensures s.seconds > 1 ==> Step(s, Tick) == s.(seconds := s.seconds - 1)
    ensures s.seconds == 1 ==> Step(s, Tick) == Snapshot(0, false, true, 0)
  {
  }

  /** Pressing play at zero rings the alarm at once instead of counting. */
  lemma ToggleAtZeroRings(s: Snapshot)
    requires Valid(s) && Enabled(s, Toggle) && s.seconds == 0
    ensures Step(s, Toggle) == Snapshot(0, false, true, 0)
  {
  }

  /** Play/pause on a silent timer with time left only flips `isActive`: a pause keeps the remaining seconds. */
  lemma ToggleSpec(s: Snapshot)
    requires Valid(s) && !s.isAlarmPlaying && s.seconds > 0
    ensures Step(s, Toggle) == s.(isActive := !s.isActive)
  {
  }

  /** The bell button silences the alarm and clears its count, and touches nothing else. */
  lemma StopAlarmSpec(s: Snapshot)
    requires Valid(s) && s.isAlarmPlaying
    ensures Step(s, StopAlarm) == s.(isAlarmPlaying := false, alarmCount := 0)
  {
  }

  /** An alarm tick counts one repeat; the 20th repeat silences the alarm and clears the count. */
  lemma AlarmTickSpec(s: Snapshot)
    requires Valid(s) && Enabled(s, AlarmTick)
    ensures s.alarmCount + 1 < AlarmRepeats ==> Step(s, AlarmTick) == s.(alarmCount := s.alarmCount + 1)
    ensures s.alarmCount + 1 == AlarmRepeats ==> Step(s, AlarmTick) == s.(isAlarmPlaying := false, alarmCount := 0)
  {
  }

  /** Reset and quit work from every state and leave the timer paused and silent. */
  lemma ResetAndQuit(s: Snapshot)
    ensures Step(s, Reset) == Snapshot(Pomodoro, false, false, 0)
    ensures Step(s, Quit) == Snapshot(0, false, false, 0)
  {
  }

  /** The presets pause the countdown but leave a ringing alarm ringing. */
  lemma PresetsKeepAlarm(s: Snapshot)
    requires Valid(s)
    ensures Step(s, PresetPomodoro) == s.(seconds := Pomodoro, isActive := false)
    ensures Step(s, PresetHour) == s.(seconds := OneHour, isActive := false)
  {
  }

  /** A negative entry in the custom form counts as zero. */
  lemma CustomSecondsClamp(hours: int, minutes: int)
    ensures CustomSeconds(hours, minutes) == CustomSeconds(if hours > 0 then hours else 0, if minutes > 0 then minutes else 0)
  {
  }

  /** The custom form takes effect only for a positive total, and then stops everything. */
  lemma StartCustomSpec(s: Snapshot, hours: int, minutes: int)
    ensures CustomSeconds(hours, minutes) <= 0 ==> Step(s, StartCustom(hours, minutes)) == s
    ensures CustomSeconds(hours, minutes) > 0 ==>
      Step(s, StartCustom(hours, minutes)) == Snapshot(CustomSeconds(hours, minutes), false, false, 0)
  {
  }

  lemma {:induction false} RunAppend(s: Snapshot, a: seq<Event>, b: seq<Event>)
    ensures Run(s, a + b) == Run(Run(s, a), b)
    ensures Possible(s, a + b) <==> Possible(s, a) && Possible(Run(s, a), b)
    decreases |a|
  {
    if a != [] {
      assert (a + b)[0] == a[0] && (a + b)[1..] == a[1..] + b;
      RunAppend(Step(s, a[0]), a[1..], b);
    } else {
      assert a + b == b;
    }
  }

  /**
   * A running countdown with n seconds left reaches the alarm after exactly n
   * ticks, each of which can happen in turn.
   */
  lemma {:induction false} CountdownRings(s: Snapshot, n: nat)
    requires Valid(s) && s.isActive && s.seconds == n && n > 0
    ensures Possible(s, Repeat(Tick, n))
    ensures Run(s, Repeat(Tick, n)) == Snapshot(0, false, true, 0)
    decreases n
  {
    var next := Step(s, Tick);
    assert Repeat(Tick, n)[1..] == Repeat(Tick, n - 1);
    if n > 1 {
      CountdownRings(next, n - 1);
    }
  }

  /**
   * A ringing alarm left alone stops by itself: after the repeats that remain
   * up to 20 it is silent, its count is back at zero, and nothing else changed.
   */
  lemma {:induction false} AlarmRunsOut(s: Snapshot)
    requires Valid(s) && s.isAlarmPlaying
    ensures Possible(s, Repeat(AlarmTick, AlarmRepeats - s.alarmCount))
    ensures Run(s, Repeat(AlarmTick, AlarmRepeats - s.alarmCount)) == s.(isAlarmPlaying := false, alarmCount := 0)
    decreases AlarmRepeats - s.alarmCount
  {
    var n := AlarmRepeats - s.alarmCount;
    var next := Step(s, AlarmTick);
    assert Repeat(AlarmTick, n)[1..] == Repeat(AlarmTick, n - 1);
    if n > 1 {
      AlarmRunsOut(next);
    }
  }

  /** Five seconds of countdown, then the alarm, then its first repeat. */
  lemma FiveSecondRun()
    ensures Possible(Snapshot(5, true, false, 0), Repeat(Tick, 5) + [AlarmTick])
    ensures Run(Snapshot(5, true, false, 0), Repeat(Tick, 5) + [AlarmTick]) == Snapshot(0, false, true, 1)
  {
    CountdownRings(Snapshot(5, true, false, 0), 5);
    RunAppend(Snapshot(5, true, false, 0), Repeat(Tick, 5), [AlarmTick]);
  }

  // ---------------------------------------------------------------------
  // The page's state cells

  class Timer {
    var seconds: int
    var isActive: bool
    var isAlarmPlaying: bool
    var alarmCount: int

    function State(): Snapshot
      reads this
    {
      Snapshot(seconds, isActive, isAlarmPlaying, alarmCount)
    }

    constructor ()
      ensures State() == Initial && Valid(State())
    {
      seconds, isActive, isAlarmPlaying, alarmCount := Pomodoro, false, false, 0;
    }

    /** The effects' reactions to the change just made. */
    method RunEffects()
      modifies this
      ensures State() == Settle(old(State()))
    {
      if alarmCount >= AlarmRepeats {
        isAlarmPlaying, alarmCount := false, 0;
      }
      if isActive && seconds == 0 {
        isActive, isAlarmPlaying := false, true;
      }
    }

    /** The countdown interval's callback `s => s - 1`. */
    method Tick()
      requires Valid(State()) && Enabled(State(), Event.Tick)
      modifies this
      ensures State() == Step(old(State()), Event.Tick) && Valid(State())
    {
      StepKeepsValid(State(), Event.Tick);
      seconds := seconds - 1;
      RunEffects();
    }

    /** The alarm interval's callback `prev => prev + 1`. */
    method AlarmTick()
      requires Valid(State()) && Enabled(State(), Event.AlarmTick)
      modifies this
      ensures State() == Step(old(State()), Event.AlarmTick) && Valid(State())
    {
      StepKeepsValid(State(), Event.AlarmTick);
      alarmCount := alarmCount + 1;
      RunEffects();
    }

    /** `setIsActive(!isActive)`. */
    method Toggle()
      requires Valid(State()) && Enabled(State(), Event.Toggle)
      modifies this
      ensures State() == Step(old(State()), Event.Toggle) && Valid(State())
    {
      StepKeepsValid(State(), Event.Toggle);
      isActive := !isActive;
      RunEffects();
    }

    /** `stopAlarm`. */
    method StopAlarm()
      requires Valid(State()) && Enabled(State(), Event.StopAlarm)
      modifies this
      ensures State() == Step(old(State()), Event.StopAlarm) && Valid(State())
    {
      StepKeepsValid(State(), Event.StopAlarm);
      isAlarmPlaying, alarmCount := false, 0;
      RunEffects();
    }

    /** `resetTimer`. */
    method Reset()
      requires Valid(State())
      modifies this
      ensures State() == Step(old(State()), Event.Reset) && Valid(State())
    {
      isActive, seconds := false, Pomodoro;
      isAlarmPlaying, alarmCount := false, 0;
      RunEffects();
    }

    /** `quitTimer`. */
    method Quit()
      requires Valid(State())
      modifies this
      ensures State() == Step(old(State()), Event.Quit) && Valid(State())
    {
      isActive, seconds := false, 0;
      isAlarmPlaying, alarmCount := false, 0;
      RunEffects();
    }

    /** The "25 Min" button. */
    method PresetPomodoro()
      requires Valid(State())
      modifies this
      ensures State() == Step(old(State()), Event.PresetPomodoro) && Valid(State())
    {
      StepKeepsValid(State(), Event.PresetPomodoro);
      seconds, isActive := Pomodoro, false;
      RunEffects();
    }

    /** The "1 Hour" button. */
    method PresetHour()
      requires Valid(State())
      modifies this
      ensures State() == Step(old(State()), Event.PresetHour) && Valid(State())
    {
      StepKeepsValid(State(), Event.PresetHour);
      seconds, isActive := OneHour, false;
      RunEffects();
    }

    /** `startCustomTimer` with the form's hours and minutes already read as integers. */
    method StartCustom(hours: int, minutes: int)
      requires Valid(State())
      modifies this
      ensures State() == Step(old(State()), Event.StartCustom(hours, minutes)) && Valid(State())
    {
      var totalSecs := CustomSeconds(hours, minutes);
      if totalSecs > 0 {
        seconds, isActive := totalSecs, false;
        isAlarmPlaying, alarmCount := false, 0;
        RunEffects();
      }
    }
  }
}
