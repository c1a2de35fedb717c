/** `PracticeDetector`: turns note-on events into practice sessions.

    The detector is an immutable record; each operation takes the current
    clock reading `now` and returns the new record together with the callbacks
    it fired, in firing order, as `Signal`s:
    `on_session_start` is `Started`, `on_session_end(start, end, count)` is
    `Ended(start, end, count)`, and `on_session_reset` is `Reset`. */
module PracticeDetector {
  import opened Base

  /** The four tuning parameters, in seconds or notes. */
  datatype Config = Config(activityThreshold: int, activityWindow: int,
                           minPracticeDuration: int, sessionTimeout: int)

  /** The constructor's defaults (also the values both trackers pass). */
  const Defaults: Config := Config(3, 10, 30, 15)

  datatype Detector = Detector(
    cfg: Config,
    active: bool,                // practice_session_active
    startTime: Option<Time>,     // session_start_time
    noteCount: int,              // session_note_count
    lastNoteTime: Option<Time>,  // last_note_time
    recent: seq<Time>            // recent_notes, oldest first
  )

  datatype Signal = Started | Ended(start: Time, end: Time, noteCount: int) | Reset

  /** New state and the callbacks fired, for operations that return nothing. */
  datatype Step = Step(det: Detector, signals: seq<Signal>)

  /** New state, callbacks fired, and the boolean the operation returns. */
  datatype Reply = Reply(det: Detector, signals: seq<Signal>, inSession: bool)

  /** A freshly constructed detector. */
  function Init(cfg: Config): Detector {
    Detector(cfg, false, None, 0, None, [])
  }

  /** The state invariant every operation keeps: a session is active exactly
      when it has a start time, and the note count is never negative. */
  predicate Valid(d: Detector) {
    (d.active <==> d.startTime.Some?) && d.noteCount >= 0
  }

  predicate Sorted(ts: seq<Time>) {
    forall i, j :: 0 <= i < j < |ts| ==> ts[i] <= ts[j]
  }

  /** Every timestamp the detector holds is no later than `now`, and the window
      is in arrival order: what a clock that never runs backwards guarantees. */
  predicate UpTo(d: Detector, now: Time) {
    && (d.startTime.Some? ==> d.startTime.value <= now)
    && (d.lastNoteTime.Some? ==> d.lastNoteTime.value <= now)
    && Sorted(d.recent)
    && (forall i :: 0 <= i < |d.recent| ==> d.recent[i] <= now)
  }

  // ---------------------------------------------------------------------------
  // The sliding window

  /** The `while` loop of `process_note_on`: drop the oldest timestamps while
      they lie strictly more than `window` seconds before `now`. */
  function Prune(recent: seq<Time>, now: Time, window: int): (r: seq<Time>)
    ensures |r| <= |recent| && r == recent[|recent| - |r|..]
    ensures r != [] ==> now - r[0] <= window
    ensures forall i :: 0 <= i < |recent| - |r| ==> now - recent[i] > window
  {
    if recent != [] && now - recent[0] > window then Prune(recent[1..], now, window) else recent
  }

  /** On a window in arrival order, pruning keeps exactly the timestamps at most
      `window` seconds old. */
  lemma PruneKeepsRecent(recent: seq<Time>, now: Time, window: int)
    requires Sorted(recent)
    ensures var r := Prune(recent, now, window);
            Sorted(r) && forall i :: 0 <= i < |r| ==> now - r[i] <= window
  {
    var r := Prune(recent, now, window);
    var k := |recent| - |r|;
    if r != [] {
      forall i | 0 <= i < |r| ensures now - r[i] <= window {
        assert r[i] == recent[k + i] && r[0] == recent[k];
      }
    }
    forall i, j | 0 <= i < j < |r| ensures r[i] <= r[j] {
      assert r[i] == recent[k + i] && r[j] == recent[k + j];
    }
  }

  // ---------------------------------------------------------------------------
  // Session start and end

  /** `_start_session`. */
  function StartSession(d: Detector, now: Time): (s: Step)
    ensures s.det.active && s.det.startTime == Some(now) && s.det.noteCount == 0
    ensures s.det.cfg == d.cfg && s.det.lastNoteTime == d.lastNoteTime && s.det.recent == d.recent
    ensures s.signals == [Started]
  {
    Step(d.(active := true, startTime := Some(now), noteCount := 0), [Started])
  }

  /** `_end_session`: a no-op unless a session is active with a start time;
      otherwise `on_session_end` fires only when the session lasted at least
      the minimum duration, the session state is cleared (the time of the last
      note is kept), and `on_session_reset` fires last, for every end. */
  function EndSession(d: Detector, now: Time): (s: Step)
    ensures !d.active || d.startTime.None? ==> s == Step(d, [])
    ensures d.active && d.startTime.Some? ==>
      && !s.det.active && s.det.startTime.None? && s.det.noteCount == 0 && s.det.recent == []
      && s.det.cfg == d.cfg && s.det.lastNoteTime == d.lastNoteTime
      && 1 <= |s.signals| <= 2 && s.signals[|s.signals| - 1] == Reset
      && (forall i :: 0 <= i < |s.signals| - 1 ==> s.signals[i].Ended?)
      && ((exists i :: 0 <= i < |s.signals| && s.signals[i].Ended?)
          <==> now - d.startTime.value >= d.cfg.minPracticeDuration)
      && forall i :: 0 <= i < |s.signals| && s.signals[i].Ended? ==>
           s.signals[i] == Ended(d.startTime.value, now, d.noteCount)
  {
    if !d.active || d.startTime.None? then Step(d, [])
    else
      var start := d.startTime.value;
      var recorded := if now - start >= d.cfg.minPracticeDuration then [Ended(start, now, d.noteCount)] else [];
      assert recorded != [] ==> (recorded + [Reset])[0].Ended?;
      Step(d.(active := false, startTime := None, noteCount := 0, recent := []), recorded + [Reset])
  }

  // ---------------------------------------------------------------------------
  // Public operations

  /** `process_note_on`: record the note, slide the window, and start a session
      when none is active and the window holds `activityThreshold` notes. Returns
      whether a session is active afterwards. */
  function ProcessNoteOn(d: Detector, now: Time): (r: Reply)
    ensures r.inSession == r.det.active
    ensures r.det.lastNoteTime == Some(now) && r.det.cfg == d.cfg
    ensures r.det.recent == Prune(d.recent + [now], now, d.cfg.activityWindow)
    ensures var autoStart := !d.active && |r.det.recent| >= d.cfg.activityThreshold;
      && (autoStart ==> r.det.active && r.det.startTime == Some(now) && r.det.noteCount == 0
                        && r.signals == [Started])
      && (!autoStart ==> r.det.active == d.active && r.det.startTime == d.startTime
                         && r.det.noteCount == d.noteCount + 1 && r.signals == [])
  {
    var window := Prune(d.recent + [now], now, d.cfg.activityWindow);
    var noted := d.(lastNoteTime := Some(now), recent := window, noteCount := d.noteCount + 1);
    if !d.active && |window| >= d.cfg.activityThreshold then
      var s := StartSession(noted, now);
      Reply(s.det, s.signals, s.det.active)
    else
      Reply(noted, [], noted.active)
  }

  /** Whether `check_timeout` ends the active session at `now`: there was a
      note, and strictly more than `sessionTimeout` seconds have passed since. */
  predicate TimedOut(d: Detector, now: Time) {
    d.lastNoteTime.Some? && now - d.lastNoteTime.value > d.cfg.sessionTimeout
  }

  /** `check_timeout`: without an active session, false and nothing changes;
      otherwise the session ends exactly when it has timed out, and the result
      says whether it is still active. */
  function CheckTimeout(d: Detector, now: Time): (r: Reply)
    ensures !d.active ==> r == Reply(d, [], false)
    ensures d.active && !TimedOut(d, now) ==> r == Reply(d, [], true)
    ensures d.active && TimedOut(d, now) ==>
              r.det == EndSession(d, now).det && !r.inSession && r.signals == EndSession(d, now).signals
  {
    if !d.active then Reply(d, [], false)
    else if TimedOut(d, now) then
      var s := EndSession(d, now);
      Reply(s.det, s.signals, false)
    else Reply(d, [], true)
  }

  /** `force_end_session`: ends an active session, otherwise does nothing. */
  function ForceEndSession(d: Detector, now: Time): (s: Step)
    ensures !d.active ==> s == Step(d, [])
    ensures d.active ==> s == EndSession(d, now)
    ensures Valid(d) ==> !s.det.active
  {
    if d.active then EndSession(d, now) else Step(d, [])
  }

  /** `force_start_session`: starts a session unless one is active, so
      `on_session_start` never fires for a session already running. */
  function ForceStartSession(d: Detector, now: Time): (s: Step)
    ensures d.active ==> s == Step(d, [])
    ensures !d.active ==> s == StartSession(d, now)
    ensures s.det.active
    ensures Started in s.signals <==> !d.active
  {
    if !d.active then StartSession(d, now) else Step(d, [])
  }

  /** What `get_session_info` reports. */
  datatype Info = Info(startTime: Time, duration: int, noteCount: int, lastActivity: Option<Time>)

  /** `get_session_info`: nothing without an active session; otherwise the
      start, the time elapsed since it, the notes counted and the last note. */
  function SessionInfo(d: Detector, now: Time): (r: Option<Info>)
    ensures r.None? <==> !d.active || d.startTime.None?
    ensures r.Some? ==> r.value.startTime == d.startTime.value
                        && r.value.startTime + r.value.duration == now
                        && r.value.noteCount == d.noteCount
                        && r.value.lastActivity == d.lastNoteTime
  {
    if !d.active || d.startTime.None? then None
    else Some(Info(d.startTime.value, now - d.startTime.value, d.noteCount, d.lastNoteTime))
  }

  // ---------------------------------------------------------------------------
  // Properties of single steps

  /** A session that starts on its own does so only once `activityThreshold`
      notes, the triggering one included, lie within `activityWindow` seconds
      of it; and that triggering note is not counted. */
  lemma AutoStartNeedsThreshold(d: Detector, now: Time)
    requires UpTo(d, now)
    requires Started in ProcessNoteOn(d, now).signals
    ensures var r := ProcessNoteOn(d, now);
            && |r.det.recent| >= d.cfg.activityThreshold
            && (forall i :: 0 <= i < |r.det.recent| ==> now - r.det.recent[i] <= d.cfg.activityWindow)
            && r.det.noteCount == 0
  {
    AppendNowSorted(d.recent, now);
    PruneKeepsRecent(d.recent + [now], now, d.cfg.activityWindow);
  }

  lemma AppendNowSorted(recent: seq<Time>, now: Time)
    requires Sorted(recent) && forall i :: 0 <= i < |recent| ==> recent[i] <= now
    ensures Sorted(recent + [now])
  {
  }

  /** Every operation at a reading no earlier than the state's keeps the
      invariant and the ordering of timestamps. */
  datatype Input = Note(at: Time) | Tick(at: Time) | ForceEnd(at: Time) | ForceStart(at: Time)

  /** One input applied to the detector. */
  function Apply(d: Detector, input: Input): Step {
    match input
    case Note(now) => var r := ProcessNoteOn(d, now); Step(r.det, r.signals)
    case Tick(now) => var r := CheckTimeout(d, now); Step(r.det, r.signals)
    case ForceEnd(now) => ForceEndSession(d, now)
    case ForceStart(now) => ForceStartSession(d, now)
  }

  lemma ApplyKeepsValid(d: Detector, input: Input)
    requires Valid(d) && UpTo(d, input.at)
    ensures Valid(Apply(d, input).det) && UpTo(Apply(d, input).det, input.at)
  {
    if input.Note? {
      NoteKeepsUpTo(d, input.at);
    }
  }

  lemma NoteKeepsUpTo(d: Detector, now: Time)
    requires UpTo(d, now)
    ensures UpTo(ProcessNoteOn(d, now).det, now)
  {
    var all := d.recent + [now];
    AppendNowSorted(d.recent, now);
    AppendNowBounded(d.recent, now);
    PruneKeepsRecent(all, now, d.cfg.activityWindow);
    PruneBounded(all, now, d.cfg.activityWindow);
    var e := ProcessNoteOn(d, now).det;
    assert e.recent == Prune(all, now, d.cfg.activityWindow);
    assert e.startTime == d.startTime || e.startTime == Some(now);
  }

  lemma AppendNowBounded(recent: seq<Time>, now: Time)
    requires forall i :: 0 <= i < |recent| ==> recent[i] <= now
    ensures forall i :: 0 <= i < |recent + [now]| ==> (recent + [now])[i] <= now
  {
  }

  lemma PruneBounded(recent: seq<Time>, now: Time, window: int)
    requires forall i :: 0 <= i < |recent| ==> recent[i] <= now
    ensures var r := Prune(recent, now, window);
            forall i :: 0 <= i < |r| ==> r[i] <= now
  {
    var r := Prune(recent, now, window);
    forall i | 0 <= i < |r| ensures r[i] <= now {
      assert r[i] == recent[|recent| - |r| + i];
    }
  }

  lemma UpToLater(d: Detector, now: Time, later: Time)
    requires UpTo(d, now) && now <= later
    ensures UpTo(d, later)
  {
  }

  // ---------------------------------------------------------------------------
  // Traces

  /** The callbacks of a run are properly bracketed: starting from `active`,
      `Started` only fires with no session running, `Ended` only inside a
      session and directly before its `Reset`, `Reset` only to close a session;
      `final` is whether a session is running at the end. */
  predicate Bracketed(active: bool, sigs: seq<Signal>, final: bool)
    decreases |sigs|
  {
    if sigs == [] then final == active
    else match sigs[0]
      case Started => !active && Bracketed(true, sigs[1..], final)
      case Ended(_, _, _) => active && |sigs| >= 2 && sigs[1] == Reset && Bracketed(active, sigs[1..], final)
      case Reset => active && Bracketed(false, sigs[1..], final)
  }

  lemma {:induction false} BracketedAppend(a: bool, s1: seq<Signal>, b: bool, s2: seq<Signal>, c: bool)
    requires Bracketed(a, s1, b) && Bracketed(b, s2, c)
    ensures Bracketed(a, s1 + s2, c)
    decreases |s1|
  {
    if s1 == [] {
      assert s1 + s2 == s2;
    } else {
      assert (s1 + s2)[0] == s1[0];
      assert (s1 + s2)[1..] == s1[1..] + s2;
      match s1[0]
      case Started => BracketedAppend(true, s1[1..], b, s2, c);
      case Ended(_, _, _) => BracketedAppend(a, s1[1..], b, s2, c);
      case Reset => BracketedAppend(false, s1[1..], b, s2, c);
    }
  }

  /** Each step's callbacks are bracketed relative to the session flag. */
  lemma ApplyBracketed(d: Detector, input: Input)
    requires Valid(d)
    ensures Bracketed(d.active, Apply(d, input).signals, Apply(d, input).det.active)
  {
    var s := Apply(d, input);
    if d.active && d.startTime.Some? && (input.ForceEnd? || (input.Tick? && TimedOut(d, input.at))) {
      var e := EndSession(d, input.at);
      assert e.signals == [Reset] || e.signals == [Ended(d.startTime.value, input.at, d.noteCount), Reset];
    }
  }

  /** A run of inputs: final state and every callback fired, in order. */
  function Run(d: Detector, inputs: seq<Input>): Step
    decreases |inputs|
  {
    if inputs == [] then Step(d, [])
    else
      var first := Apply(d, inputs[0]);
      var rest := Run(first.det, inputs[1..]);
      Step(rest.det, first.signals + rest.signals)
  }

  /** Inputs whose clock readings never go backwards, starting no earlier
      than every timestamp in `d`. */
  predicate Chronological(d: Detector, inputs: seq<Input>) {
    && (inputs != [] ==> UpTo(d, inputs[0].at))
    && forall i, j :: 0 <= i < j < |inputs| ==> inputs[i].at <= inputs[j].at
  }

  /** Over any run, sessions never overlap: `on_session_start` never fires
      while a session is running, and every end and reset closes one. */
  lemma {:induction false} RunBracketed(d: Detector, inputs: seq<Input>)
    requires Valid(d)
    ensures Bracketed(d.active, Run(d, inputs).signals, Run(d, inputs).det.active)
    decreases |inputs|
  {
    if inputs != [] {
      var first := Apply(d, inputs[0]);
      ApplyBracketed(d, inputs[0]);
      ApplyKeepsValidAnyTime(d, inputs[0]);
      RunBracketed(first.det, inputs[1..]);
      BracketedAppend(d.active, first.signals, first.det.active,
                      Run(first.det, inputs[1..]).signals, Run(first.det, inputs[1..]).det.active);
    }
  }

  /** Validity alone (without clock ordering) is kept by every input. */
  lemma ApplyKeepsValidAnyTime(d: Detector, input: Input)
    requires Valid(d)
    ensures Valid(Apply(d, input).det)
  {
  }

  /** Every `Ended` callback among `sigs` reports a session of at least `min`
      seconds and no negative note count. */
  predicate LongEnds(sigs: seq<Signal>, min: int) {
    forall i :: 0 <= i < |sigs| && sigs[i].Ended? ==>
      sigs[i].end - sigs[i].start >= min && sigs[i].noteCount >= 0
  }

  lemma LongEndsAppend(a: seq<Signal>, b: seq<Signal>, min: int)
    requires LongEnds(a, min) && LongEnds(b, min)
    ensures LongEnds(a + b, min)
  {
    forall i | 0 <= i < |a + b| && (a + b)[i].Ended?
      ensures (a + b)[i].end - (a + b)[i].start >= min && (a + b)[i].noteCount >= 0
    {
      if i >= |a| {
        assert (a + b)[i] == b[i - |a|];
      } else {
        assert (a + b)[i] == a[i];
      }
    }
  }

  lemma ApplyLongEnds(d: Detector, input: Input)
    requires Valid(d)
    ensures LongEnds(Apply(d, input).signals, d.cfg.minPracticeDuration)
    ensures Apply(d, input).det.cfg == d.cfg
  {
  }

  /** Over any run, every session reported to `on_session_end` lasted at
      least `minPracticeDuration` and counted no negative number of notes. */
  lemma {:induction false} RunRecordsOnlyLongSessions(d: Detector, inputs: seq<Input>)
    requires Valid(d)
    ensures LongEnds(Run(d, inputs).signals, d.cfg.minPracticeDuration)
    decreases |inputs|
  {
    if inputs != [] {
      var first := Apply(d, inputs[0]);
      ApplyKeepsValidAnyTime(d, inputs[0]);
      ApplyLongEnds(d, inputs[0]);
      RunRecordsOnlyLongSessions(first.det, inputs[1..]);
      LongEndsAppend(first.signals, Run(first.det, inputs[1..]).signals, d.cfg.minPracticeDuration);
    }
  }

  /** With a clock that never runs backwards, the invariant and the ordering of
      timestamps hold after any run. */
  lemma {:induction false} RunKeepsValid(d: Detector, inputs: seq<Input>)
    requires Valid(d) && Chronological(d, inputs)
    ensures Valid(Run(d, inputs).det)
    ensures inputs != [] ==> UpTo(Run(d, inputs).det, inputs[|inputs| - 1].at)
    decreases |inputs|
  {
    if inputs != [] {
      var first := Apply(d, inputs[0]);
      ApplyKeepsValid(d, inputs[0]);
      if |inputs| > 1 {
        UpToLater(first.det, inputs[0].at, inputs[1].at);
        assert Chronological(first.det, inputs[1..]) by {
          forall i, j | 0 <= i < j < |inputs[1..]| ensures inputs[1..][i].at <= inputs[1..][j].at {
            assert inputs[1..][i] == inputs[i + 1] && inputs[1..][j] == inputs[j + 1];
          }
        }
      }
      RunKeepsValid(first.det, inputs[1..]);
    }
  }
}
