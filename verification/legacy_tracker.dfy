/** `PracticeTracker` of the top-level `main.py`: the older console tracker with
    a fixed two-user mapping and no web interface. It shares the detector with
    the `pianolog` tracker but differs in one respect: choosing a user on the
    piano feeds the selecting key to the detector as an ordinary note instead of
    forcing a session to start. */
module LegacyTracker {
  import opened Base
  import PD = PracticeDetector
  import PT = PracticeTracker

  const Unknown: string := "unknown"

  /** The fixed key mapping: middle C for the parent, D for the daughter. */
  const UserNotes: map<int, string> := map[60 := "parent", 62 := "daughter"]

  /** The detector settings `main.py` passes. */
  const Settings: PD.Config := PD.Config(3, 10, 30, 15)

  /** Console announcements and database writes. */
  datatype Event =
    | PromptShown                                           // "WHO'S PRACTICING?" and the prompt melody
    | Confirmed(user: string)                               // selection printed, confirmation chord
    | Announced(user: string)                               // "Practice session started for ..."
    | Saved(user: string, start: Time, end: Time, noteCount: int)  // save_session

  datatype Tracker = Tracker(det: PD.Detector, currentUser: string, prompt: bool, waiting: bool)
  datatype Step = Step(t: Tracker, events: seq<Event>)

  function Init(prompt: bool): (t: Tracker)
    ensures t.currentUser == Unknown && !t.waiting && !t.det.active
  {
    Tracker(PD.Init(Settings), Unknown, prompt, false)
  }

  predicate Valid(t: Tracker) {
    && PD.Valid(t.det)
    && (t.waiting ==> t.prompt && !t.det.active)
  }

  /** `_on_session_start`, `_on_session_end`, `_on_session_reset`. */
  function OnSignal(t: Tracker, sig: PD.Signal): (s: Step)
    ensures s.t.det == t.det && s.t.waiting == t.waiting && s.t.prompt == t.prompt
    ensures sig.Started? || !t.prompt ==> s.t.currentUser == t.currentUser
    ensures !sig.Started? && t.prompt ==> s.t.currentUser == Unknown
    ensures sig.Ended? ==> s.events == [Saved(t.currentUser, sig.start, sig.end, sig.noteCount)]
    ensures !sig.Ended? ==> forall e :: e in s.events ==> !e.Saved?
  {
    match sig
    case Started =>
      Step(t, if !t.waiting && t.currentUser != Unknown then [Announced(t.currentUser)] else [])
    case Ended(start, end, count) =>
      Step(if t.prompt then t.(currentUser := Unknown) else t, [Saved(t.currentUser, start, end, count)])
    case Reset =>
      Step(if t.prompt then t.(currentUser := Unknown) else t, [])
  }

  /** The callbacks of one detector operation, handled in order. Every write to
      the database is an `Ended` callback with the same times and count. */
  function OnSignals(t: Tracker, sigs: seq<PD.Signal>): (s: Step)
    ensures s.t.det == t.det && s.t.waiting == t.waiting && s.t.prompt == t.prompt
    ensures !t.prompt ==> s.t.currentUser == t.currentUser
    ensures s.t.currentUser == t.currentUser || s.t.currentUser == Unknown
    ensures t.prompt && (exists i :: 0 <= i < |sigs| && !sigs[i].Started?) ==> s.t.currentUser == Unknown
    ensures forall i :: 0 <= i < |s.events| && s.events[i].Saved? ==>
              PD.Ended(s.events[i].start, s.events[i].end, s.events[i].noteCount) in sigs
    ensures forall i :: 0 <= i < |sigs| && sigs[i].Ended? ==>
              exists e :: e in s.events && e.Saved? && PD.Ended(e.start, e.end, e.noteCount) == sigs[i]
    ensures |sigs| > 0 && sigs[0].Ended? ==>
              s.events[0] == Saved(t.currentUser, sigs[0].start, sigs[0].end, sigs[0].noteCount)
    ensures forall e :: e in s.events && e.Saved? ==>
              e.user == t.currentUser || (t.prompt && e.user == Unknown)
    decreases |sigs|
  {
    if sigs == [] then Step(t, [])
    else
      var first := OnSignal(t, sigs[0]);
      var rest := OnSignals(first.t, sigs[1..]);
      var all := first.events + rest.events;
      assert forall i :: 0 <= i < |all| && all[i].Saved? ==>
               PD.Ended(all[i].start, all[i].end, all[i].noteCount) in sigs by {
        forall i | 0 <= i < |all| && all[i].Saved?
          ensures PD.Ended(all[i].start, all[i].end, all[i].noteCount) in sigs
        {
          if i < |first.events| {
            assert all[i] == first.events[i];
          } else {
            assert all[i] == rest.events[i - |first.events|];
            var k :| 0 <= k < |sigs[1..]| && sigs[1..][k] == PD.Ended(all[i].start, all[i].end, all[i].noteCount);
            assert sigs[k + 1] == sigs[1..][k];
          }
        }
      }
      assert t.prompt && (exists i :: 0 <= i < |sigs| && !sigs[i].Started?) ==> rest.t.currentUser == Unknown by {
        if t.prompt && exists i :: 0 <= i < |sigs| && !sigs[i].Started? {
          var i :| 0 <= i < |sigs| && !sigs[i].Started?;
          if i > 0 {
            assert sigs[1..][i - 1] == sigs[i];
          }
        }
      }
      assert forall i :: 0 <= i < |sigs| && sigs[i].Ended? ==>
               exists e :: e in all && e.Saved? && PD.Ended(e.start, e.end, e.noteCount) == sigs[i] by {
        forall i | 0 <= i < |sigs| && sigs[i].Ended?
          ensures exists e :: e in all && e.Saved? && PD.Ended(e.start, e.end, e.noteCount) == sigs[i]
        {
          if i == 0 {
            assert first.events[0] in all;
          } else {
            assert sigs[1..][i - 1] == sigs[i];
            var e :| e in rest.events && e.Saved? && PD.Ended(e.start, e.end, e.noteCount) == sigs[i];
            assert e in all;
          }
        }
      }
      Step(rest.t, all)
  }

  /** Applies one detector operation's result and handles its callbacks. */
  function Handle(t: Tracker, d: PD.Step): Step {
    OnSignals(t.(det := d.det), d.signals)
  }

  /** `_on_note_on`. */
  function KeyPressed(t: Tracker, note: int, now: Time): Step {
    if t.waiting then
      if note in UserNotes then
        var user := UserNotes[note];
        var chosen := t.(currentUser := user, waiting := false);
        var r := PD.ProcessNoteOn(chosen.det, now);
        var h := Handle(chosen, PD.Step(r.det, r.signals));
        Step(h.t, [Confirmed(user)] + h.events)
      else Step(t, [])
    else if t.prompt && !t.det.active && t.currentUser == Unknown then
      Step(t.(waiting := true), [PromptShown])
    else
      var r := PD.ProcessNoteOn(t.det, now);
      Handle(t, PD.Step(r.det, r.signals))
  }

  /** One round of `_timeout_checker`. */
  function TimeoutCheck(t: Tracker, now: Time): Step {
    var r := PD.CheckTimeout(t.det, now);
    Handle(t, PD.Step(r.det, r.signals))
  }

  /** `stop`: end the running session, if any. */
  function Stop(t: Tracker, now: Time): Step {
    Handle(t, PD.ForceEndSession(t.det, now))
  }

  datatype Input = Key(note: int, at: Time) | Tick(at: Time) | Shutdown(at: Time)

  function Apply(t: Tracker, input: Input): Step {
    match input
    case Key(note, now) => KeyPressed(t, note, now)
    case Tick(now) => TimeoutCheck(t, now)
    case Shutdown(now) => Stop(t, now)
  }

  /** The detector input `input` drives, if any. */
  function DetectorInput(t: Tracker, input: Input): Option<PD.Input> {
    match input
    case Key(note, now) =>
      if t.waiting then (if note in UserNotes then Some(PD.Note(now)) else None)
      else if t.prompt && !t.det.active && t.currentUser == Unknown then None
      else Some(PD.Note(now))
    case Tick(now) => Some(PD.Tick(now))
    case Shutdown(now) => Some(PD.ForceEnd(now))
  }

  // ---------------------------------------------------------------------------
  // Properties

  /** Each input applies at most one detector input and handles its callbacks;
      every session saved is one the detector reported. */
  lemma ApplyDrivesDetector(t: Tracker, input: Input)
    ensures var s := Apply(t, input);
      && (DetectorInput(t, input).None? ==> s.t.det == t.det && forall e :: e in s.events ==> !e.Saved?)
      && (DetectorInput(t, input).Some? ==>
            var d := PD.Apply(t.det, DetectorInput(t, input).value);
            && s.t.det == d.det
            && forall i :: 0 <= i < |s.events| && s.events[i].Saved? ==>
                 PD.Ended(s.events[i].start, s.events[i].end, s.events[i].noteCount) in d.signals)
  {
    if input.Key? && t.waiting && input.note in UserNotes {
      var s := Apply(t, input);
      var chosen := t.(currentUser := UserNotes[input.note], waiting := false);
      var r := PD.ProcessNoteOn(chosen.det, input.at);
      var h := Handle(chosen, PD.Step(r.det, r.signals));
      forall i | 0 <= i < |s.events| && s.events[i].Saved?
        ensures PD.Ended(s.events[i].start, s.events[i].end, s.events[i].noteCount) in r.signals
      {
        assert s.events[i] == h.events[i - 1];
      }
    }
  }

  /** Every session saved to the database lasted at least the minimum. */
  lemma SavedSessionsAreLong(t: Tracker, input: Input)
    requires PD.Valid(t.det)
    ensures var s := Apply(t, input);
            forall i :: 0 <= i < |s.events| && s.events[i].Saved? ==>
              s.events[i].end - s.events[i].start >= t.det.cfg.minPracticeDuration
  {
    ApplyDrivesDetector(t, input);
    var s := Apply(t, input);
    if DetectorInput(t, input).Some? {
      var x := DetectorInput(t, input).value;
      PD.RunRecordsOnlyLongSessions(t.det, [x]);
      var d := PD.Apply(t.det, x);
      assert PD.Run(t.det, [x]).signals == d.signals + [];
      assert d.signals + [] == d.signals;
      forall i | 0 <= i < |s.events| && s.events[i].Saved?
        ensures s.events[i].end - s.events[i].start >= t.det.cfg.minPracticeDuration
      {
        var k :| 0 <= k < |d.signals| && d.signals[k] == PD.Ended(s.events[i].start, s.events[i].end, s.events[i].noteCount);
      }
    }
  }

  /** Every input keeps the invariant. */
  lemma ApplyKeepsValid(t: Tracker, input: Input)
    requires Valid(t)
    ensures Valid(Apply(t, input).t)
  {
    ApplyDrivesDetector(t, input);
    if DetectorInput(t, input).Some? {
      PD.ApplyKeepsValidAnyTime(t.det, DetectorInput(t, input).value);
    }
  }

  /** Choosing a user counts the selecting key as an ordinary note: the
      session starts on its own only once the window is full. */
  lemma SelectionIsAnOrdinaryNote(t: Tracker, note: int, now: Time)
    requires t.waiting && note in UserNotes
    ensures var s := KeyPressed(t, note, now);
      && s.t.currentUser == UserNotes[note] && !s.t.waiting
      && s.t.det == PD.ProcessNoteOn(t.det, now).det
      && s.events[0] == Confirmed(UserNotes[note])
  {
  }

  /** The three ways `_on_note_on` routes a key: while waiting, a key that
      selects nobody is ignored; a first key in prompt mode only brings up the
      prompt; any other key outside the waiting state is one note for the
      detector, and only the detector's own callbacks can change the user. */
  lemma KeyRouting(t: Tracker, note: int, now: Time)
    ensures t.waiting && note !in UserNotes ==> KeyPressed(t, note, now) == Step(t, [])
    ensures !t.waiting && t.prompt && !t.det.active && t.currentUser == Unknown ==>
              KeyPressed(t, note, now) == Step(t.(waiting := true), [PromptShown])
    ensures !t.waiting && !(t.prompt && !t.det.active && t.currentUser == Unknown) ==>
              var s := KeyPressed(t, note, now);
              && s.t.det == PD.ProcessNoteOn(t.det, now).det && !s.t.waiting
              && (s.t.currentUser == t.currentUser || s.t.currentUser == Unknown)
  {
  }

  /** The two trackers differ on selection. From a fresh detector, the legacy
      tracker's selecting key is one note of three, so no session runs yet;
      `PianologSelectionStarts` shows the `pianolog` tracker starting one at once. */
  lemma LegacySelectionWaitsForThreshold(now: Time)
    ensures var legacy := KeyPressed(Tracker(PD.Init(Settings), Unknown, true, true), 60, now);
            !legacy.t.det.active && legacy.events == [Confirmed("parent")]
  {
    var t := Tracker(PD.Init(Settings), Unknown, true, true);
    assert 60 in UserNotes && UserNotes[60] == "parent";
    FirstNoteStartsNothing(now);
    assert PD.ProcessNoteOn(t.det, now).signals == [];
    QuietSelection(t, 60, now);
  }

  /** A selecting key on which the detector fires nothing yields only the
      confirmation. */
  lemma QuietSelection(t: Tracker, note: int, now: Time)
    requires t.waiting && note in UserNotes && PD.ProcessNoteOn(t.det, now).signals == []
    ensures KeyPressed(t, note, now).events == [Confirmed(UserNotes[note])]
    ensures KeyPressed(t, note, now).t.det == PD.ProcessNoteOn(t.det, now).det
  {
    var r := PD.ProcessNoteOn(t.det, now);
    var chosen := t.(currentUser := UserNotes[note], waiting := false);
    assert Handle(chosen, PD.Step(r.det, r.signals)).events == [];
  }

  /** One note on a fresh detector neither starts nor reports anything. */
  lemma FirstNoteStartsNothing(now: Time)
    ensures var r := PD.ProcessNoteOn(PD.Init(Settings), now);
            !r.det.active && r.signals == []
  {
    var r := PD.ProcessNoteOn(PD.Init(Settings), now);
    assert |r.det.recent| <= 1;
  }

  lemma PianologSelectionStarts(now: Time)
    ensures PT.KeyPressed(PT.Tracker(PD.Init(Settings), Unknown, true, true, UserNotes), 60, now).t.det.active
  {
    var t := PT.Tracker(PD.Init(Settings), Unknown, true, true, UserNotes);
    assert PT.Valid(t);
    PT.SelectionStartsSession(t, 60, now);
  }

  /** In prompt mode, every session end hands the piano back to "unknown". */
  lemma UserResetAfterSessionEnd(t: Tracker, input: Input)
    requires t.prompt
    requires PD.Valid(t.det) && t.det.active && (input.Shutdown? || (input.Tick? && PD.TimedOut(t.det, input.at)))
    ensures Apply(t, input).t.currentUser == Unknown
  {
    var e := PD.EndSession(t.det, input.at);
    assert e.signals[|e.signals| - 1] == PD.Reset;
  }
}
