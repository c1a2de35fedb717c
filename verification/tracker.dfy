/** `PracticeTracker` of the `pianolog` package: glues the MIDI monitor, the
    practice detector, the database and the web interface together.

    The tracker is an immutable record. Each input (a key press the monitor
    delivers, a web request, a tick of the timeout thread, shutdown) drives the
    detector through a sequence of detector inputs and handles the callbacks
    each one fires before the next; what it writes to the database and pushes
    to web clients comes back as `Event`s, in order. The web server is assumed
    enabled. */
module PracticeTracker {
  import opened Base
  import PD = PracticeDetector

  /** The user recorded when nobody was selected. */
  const Unknown: string := "unknown"

  /** A row of the `users` table. */
  datatype UserRow = UserRow(name: string, triggerNote: int, tombstoned: bool)

  /** `_load_user_notes`: trigger note to name, for the users `get_users()`
      returns (those not tombstoned); a later row wins a shared note. */
  function LoadUserNotes(rows: seq<UserRow>): (r: map<int, string>)
    ensures forall n :: n in r <==> exists i :: 0 <= i < |rows| && !rows[i].tombstoned && rows[i].triggerNote == n
    ensures forall n :: n in r ==>
              exists i :: 0 <= i < |rows| && !rows[i].tombstoned && rows[i].triggerNote == n && rows[i].name == r[n]
  {
    if rows == [] then map[]
    else
      var earlier := LoadUserNotes(rows[..|rows| - 1]);
      var last := rows[|rows| - 1];
      assert forall i :: 0 <= i < |rows| - 1 ==> rows[..|rows| - 1][i] == rows[i];
      if last.tombstoned then earlier else earlier[last.triggerNote := last.name]
  }

  /** Trigger notes are unique in the table, so every live user is reachable
      from its own note. */
  lemma {:induction false} LoadUserNotesFindsEveryUser(rows: seq<UserRow>, k: int)
    requires forall i, j :: 0 <= i < j < |rows| ==> rows[i].triggerNote != rows[j].triggerNote
    requires 0 <= k < |rows| && !rows[k].tombstoned
    ensures rows[k].triggerNote in LoadUserNotes(rows)
    ensures LoadUserNotes(rows)[rows[k].triggerNote] == rows[k].name
  {
    var front := rows[..|rows| - 1];
    if k < |rows| - 1 {
      assert front[k] == rows[k];
      assert forall i, j :: 0 <= i < j < |front| ==> front[i].triggerNote != front[j].triggerNote by {
        forall i, j | 0 <= i < j < |front| ensures front[i].triggerNote != front[j].triggerNote {
          assert front[i] == rows[i] && front[j] == rows[j];
        }
      }
      LoadUserNotesFindsEveryUser(front, k);
    }
  }

  /** What the tracker records and pushes to web clients. */
  datatype Event =
    | PromptShown                                    // prompt melody + user_selection_prompt
    | Confirmed(user: string)                        // confirmation chord for a chosen user
    | SessionStarted(user: string, info: PD.Info)    // session_started
    | Activity(user: string, info: PD.Info)          // session_activity
    | Recorded(user: string, start: Time, end: Time, noteCount: int)  // save_session + session_ended
    | ResetNotice(user: string)                      // session_ended from the reset callback

  datatype Tracker = Tracker(
    det: PD.Detector,
    currentUser: string,
    prompt: bool,               // prompt_on_session_start
    waiting: bool,              // waiting_for_user
    userNotes: map<int, string>
  )

  datatype Step = Step(t: Tracker, events: seq<Event>)
  datatype Reply = Reply(t: Tracker, events: seq<Event>, ok: bool)

  /** A freshly constructed tracker. */
  function Init(cfg: PD.Config, prompt: bool, rows: seq<UserRow>): Tracker {
    Tracker(PD.Init(cfg), Unknown, prompt, false, LoadUserNotes(rows))
  }

  /** The tracker invariant: the detector's own invariant, and a tracker waiting
      for a user is in prompt mode with no session running. */
  predicate Valid(t: Tracker) {
    && PD.Valid(t.det)
    && (t.waiting ==> t.prompt && !t.det.active)
  }

  // ---------------------------------------------------------------------------
  // Detector callbacks

  /** Whether `e` ends a session for the web clients or the database. */
  predicate Closes(e: Event) {
    e.Recorded? || e.ResetNotice?
  }

  /** `_on_session_start`, `_on_session_end` and `_on_session_reset`. */
  function OnSignal(t: Tracker, sig: PD.Signal, now: Time): (s: Step)
    ensures s.t.det == t.det && s.t.waiting == t.waiting && s.t.prompt == t.prompt && s.t.userNotes == t.userNotes
    ensures sig.Started? || !t.prompt ==> s.t.currentUser == t.currentUser
    ensures !sig.Started? && t.prompt ==> s.t.currentUser == Unknown
    ensures sig.Started? ==> forall e :: e in s.events ==> e.SessionStarted?
    ensures sig.Started? && (t.waiting || t.currentUser == Unknown) ==> s.events == []
    ensures sig.Started? && !t.waiting && t.currentUser != Unknown && t.det.active && t.det.startTime.Some? ==>
              s.events == [SessionStarted(t.currentUser, PD.SessionInfo(t.det, now).value)]
    ensures sig.Ended? ==> s.events == [Recorded(t.currentUser, sig.start, sig.end, sig.noteCount)]
    ensures sig.Reset? ==> s.events == [ResetNotice(t.currentUser)]
  {
    match sig
    case Started =>
      if !t.waiting && t.currentUser != Unknown then
        match PD.SessionInfo(t.det, now)
        case Some(info) => Step(t, [SessionStarted(t.currentUser, info)])
        case None => Step(t, [])
      else Step(t, [])
    case Ended(start, end, count) =>
      Step(if t.prompt then t.(currentUser := Unknown) else t, [Recorded(t.currentUser, start, end, count)])
    case Reset =>
      Step(if t.prompt then t.(currentUser := Unknown) else t, [ResetNotice(t.currentUser)])
  }

  /** The callbacks of one detector operation, handled in firing order. */
  function OnSignals(t: Tracker, sigs: seq<PD.Signal>, now: Time): (s: Step)
    ensures s.t.det == t.det && s.t.waiting == t.waiting && s.t.prompt == t.prompt && s.t.userNotes == t.userNotes
    decreases |sigs|
  {
    if sigs == [] then Step(t, [])
    else
      var first := OnSignal(t, sigs[0], now);
      var rest := OnSignals(first.t, sigs[1..], now);
      Step(rest.t, first.events + rest.events)
  }

  /** Drives the detector through `ins`, handling each input's callbacks
      before the next input. */
  function Drive(t: Tracker, ins: seq<PD.Input>): (s: Step)
    ensures s.t.waiting == t.waiting && s.t.prompt == t.prompt && s.t.userNotes == t.userNotes
    decreases |ins|
  {
    if ins == [] then Step(t, [])
    else
      var d := PD.Apply(t.det, ins[0]);
      var h := OnSignals(t.(det := d.det), d.signals, ins[0].at);
      var rest := Drive(h.t, ins[1..]);
      Step(rest.t, h.events + rest.events)
  }

  // ---------------------------------------------------------------------------
  // Operations

  /** `_on_note_on`, for a key press the monitor delivers. */
  function KeyPressed(t: Tracker, note: int, now: Time): (s: Step)
  {
    if t.waiting then
      if note in t.userNotes then
        var user := t.userNotes[note];
        var chosen := t.(waiting := false, currentUser := user);
        var d := Drive(chosen, [PD.ForceStart(now), PD.Note(now)]);
        Step(d.t, [Confirmed(user)] + d.events)
      else Step(t, [])
    else if t.prompt && !t.det.active && t.currentUser == Unknown then
      Step(t.(waiting := true), [PromptShown])
    else
      var d := Drive(t, [PD.Note(now)]);
      var activity := if d.t.det.active then
                        match PD.SessionInfo(d.t.det, now)
                        case Some(info) => [Activity(d.t.currentUser, info)]
                        case None => []
                      else [];
      Step(d.t, d.events + activity)
  }

  /** Whether a request's `user_id` passes the `if not user_id` guard: present
      and non-empty. */
  predicate Given(userId: Option<string>) {
    userId.Some? && userId.value != ""
  }

  /** `POST /api/user/activate`: choose the user, stop waiting, confirm, and
      force a session to start. A missing or empty user id is rejected with
      nothing changed. */
  function ActivateUser(t: Tracker, userId: Option<string>, now: Time): (r: Reply)
    ensures r.ok <==> Given(userId)
    ensures !r.ok ==> r.t == t && r.events == []
  {
    if !Given(userId) then Reply(t, [], false)
    else
      var user := userId.value;
      var chosen := t.(currentUser := user, waiting := false);
      var d := Drive(chosen, [PD.ForceStart(now)]);
      Reply(d.t, [Confirmed(user)] + d.events, true)
  }

  /** `POST /api/user` and `set_user`: change the current user only. */
  function SetUser(t: Tracker, userId: Option<string>): (r: Reply)
    ensures r.ok <==> Given(userId)
    ensures r.ok ==> r.t == t.(currentUser := userId.value)
    ensures !r.ok ==> r.t == t
    ensures r.events == []
  {
    if !Given(userId) then Reply(t, [], false) else Reply(t.(currentUser := userId.value), [], true)
  }

  /** `POST /api/session/end`: force the running session to end; refused when
      there is none. */
  function EndRequest(t: Tracker, now: Time): (r: Reply)
    ensures r.ok <==> t.det.active
    ensures !r.ok ==> r.t == t && r.events == []
  {
    if t.det.active then
      var d := Drive(t, [PD.ForceEnd(now)]);
      Reply(d.t, d.events, true)
    else Reply(t, [], false)
  }

  /** One round of `_timeout_checker`. */
  function TimeoutCheck(t: Tracker, now: Time): (s: Step)
  {
    Drive(t, [PD.Tick(now)])
  }

  /** `stop`: the running session, if any, is ended (and saved when long enough). */
  function Stop(t: Tracker, now: Time): (s: Step)
  {
    Drive(t, [PD.ForceEnd(now)])
  }

  /** Everything that reaches the tracker. */
  datatype Input =
    | Key(note: int, at: Time)
    | Activate(userId: Option<string>, at: Time)
    | ChooseUser(userId: Option<string>)
    | End(at: Time)
    | Tick(at: Time)
    | Shutdown(at: Time)

  function Apply(t: Tracker, input: Input): Step {
    match input
    case Key(note, now) => KeyPressed(t, note, now)
    case Activate(id, now) => var r := ActivateUser(t, id, now); Step(r.t, r.events)
    case ChooseUser(id) => var r := SetUser(t, id); Step(r.t, r.events)
    case End(now) => var r := EndRequest(t, now); Step(r.t, r.events)
    case Tick(now) => TimeoutCheck(t, now)
    case Shutdown(now) => Stop(t, now)
  }

  /** The detector inputs `input` drives, given the tracker state it meets. */
  function DetectorInputs(t: Tracker, input: Input): seq<PD.Input> {
    match input
    case Key(note, now) =>
      if t.waiting then (if note in t.userNotes then [PD.ForceStart(now), PD.Note(now)] else [])
      else if t.prompt && !t.det.active && t.currentUser == Unknown then []
      else [PD.Note(now)]
    case Activate(id, now) => if Given(id) then [PD.ForceStart(now)] else []
    case ChooseUser(_) => []
    case End(now) => if t.det.active then [PD.ForceEnd(now)] else []
    case Tick(now) => [PD.Tick(now)]
    case Shutdown(now) => [PD.ForceEnd(now)]
  }

  // ---------------------------------------------------------------------------
  // Properties of the callback handling

  /** Handling callbacks: outside prompt mode the user never changes; in prompt
      mode it is reset to "unknown" by every session end, and a session start
      never changes it. Every record written corresponds to an `Ended`
      callback, with the same times and count. */
  lemma {:induction false} OnSignalsFacts(t: Tracker, sigs: seq<PD.Signal>, now: Time)
    ensures var s := OnSignals(t, sigs, now);
      && (!t.prompt ==> s.t.currentUser == t.currentUser)
      && (s.t.currentUser == t.currentUser || s.t.currentUser == Unknown)
      && (t.prompt && (exists i :: 0 <= i < |s.events| && Closes(s.events[i])) ==> s.t.currentUser == Unknown)
      && (forall i :: 0 <= i < |s.events| && s.events[i].Recorded? ==>
            PD.Ended(s.events[i].start, s.events[i].end, s.events[i].noteCount) in sigs)
    decreases |sigs|
  {
    if sigs != [] {
      var first := OnSignal(t, sigs[0], now);
      var rest := OnSignals(first.t, sigs[1..], now);
      OnSignalsFacts(first.t, sigs[1..], now);
      var all := first.events + rest.events;
      forall i | 0 <= i < |all| && all[i].Recorded?
        ensures PD.Ended(all[i].start, all[i].end, all[i].noteCount) in sigs
      {
        if i < |first.events| {
          assert all[i] == first.events[i];
          assert sigs[0].Ended?;
        } else {
          assert all[i] == rest.events[i - |first.events|];
          var k :| 0 <= k < |sigs[1..]| && sigs[1..][k] == PD.Ended(all[i].start, all[i].end, all[i].noteCount);
          assert sigs[k + 1] == sigs[1..][k];
        }
      }
      if t.prompt && exists i :: 0 <= i < |all| && Closes(all[i]) {
        var i :| 0 <= i < |all| && Closes(all[i]);
        if i < |first.events| {
          assert all[i] == first.events[i];
          assert !sigs[0].Started?;
        } else {
          assert all[i] == rest.events[i - |first.events|];
        }
      }
    }
  }

  /** The same facts over a sequence of detector inputs, plus: the detector
      ends exactly where running those inputs on it ends, and every record
      written is an end the detector reported. */
  lemma {:induction false} DriveFacts(t: Tracker, ins: seq<PD.Input>)
    ensures var s := Drive(t, ins);
      && s.t.det == PD.Run(t.det, ins).det
      && (!t.prompt ==> s.t.currentUser == t.currentUser)
      && (s.t.currentUser == t.currentUser || s.t.currentUser == Unknown)
      && (t.prompt && (exists i :: 0 <= i < |s.events| && Closes(s.events[i])) ==> s.t.currentUser == Unknown)
      && (forall i :: 0 <= i < |s.events| && s.events[i].Recorded? ==>
            PD.Ended(s.events[i].start, s.events[i].end, s.events[i].noteCount) in PD.Run(t.det, ins).signals)
    decreases |ins|
  {
    if ins != [] {
      var d := PD.Apply(t.det, ins[0]);
      var h := OnSignals(t.(det := d.det), d.signals, ins[0].at);
      var rest := Drive(h.t, ins[1..]);
      OnSignalsFacts(t.(det := d.det), d.signals, ins[0].at);
      DriveFacts(h.t, ins[1..]);
      var run := PD.Run(t.det, ins);
      assert run.signals == d.signals + PD.Run(d.det, ins[1..]).signals;
      var all := h.events + rest.events;
      forall i | 0 <= i < |all| && all[i].Recorded?
        ensures PD.Ended(all[i].start, all[i].end, all[i].noteCount) in run.signals
      {
        if i < |h.events| {
          assert all[i] == h.events[i];
        } else {
          assert all[i] == rest.events[i - |h.events|];
        }
      }
      if t.prompt && exists i :: 0 <= i < |all| && Closes(all[i]) {
        var i :| 0 <= i < |all| && Closes(all[i]);
        if i >= |h.events| {
          assert all[i] == rest.events[i - |h.events|];
        } else {
          assert all[i] == h.events[i];
        }
      }
    }
  }

  /** The tracker state an input's detector calls start from: the user chosen
      and the waiting flag set or cleared before the detector is driven. */
  function Prepare(t: Tracker, input: Input): (p: Tracker)
    ensures p.det == t.det && p.prompt == t.prompt && p.userNotes == t.userNotes
  {
    match input
    case Key(note, _) =>
      if t.waiting then (if note in t.userNotes then t.(waiting := false, currentUser := t.userNotes[note]) else t)
      else if t.prompt && !t.det.active && t.currentUser == Unknown then t.(waiting := true)
      else t
    case Activate(id, _) => if Given(id) then t.(currentUser := id.value, waiting := false) else t
    case ChooseUser(id) => if Given(id) then t.(currentUser := id.value) else t
    case _ => t
  }

  /** The events an input produces before driving the detector. */
  function Prefix(t: Tracker, input: Input): (pre: seq<Event>)
    ensures forall i :: 0 <= i < |pre| ==> !Closes(pre[i])
  {
    match input
    case Key(note, _) =>
      if t.waiting then (if note in t.userNotes then [Confirmed(t.userNotes[note])] else [])
      else if t.prompt && !t.det.active && t.currentUser == Unknown then [PromptShown]
      else []
    case Activate(id, _) => if Given(id) then [Confirmed(id.value)] else []
    case _ => []
  }

  /** The events an input produces after driving the detector, given the state
      `after` the drive reached: the activity notice of a counted key press. */
  function Suffix(t: Tracker, input: Input, after: Tracker): (post: seq<Event>)
    ensures forall i :: 0 <= i < |post| ==> !Closes(post[i])
  {
    match input
    case Key(_, now) =>
      if !t.waiting && !(t.prompt && !t.det.active && t.currentUser == Unknown) && after.det.active then
        match PD.SessionInfo(after.det, now)
        case Some(info) => [Activity(after.currentUser, info)]
        case None => []
      else []
    case _ => []
  }

  /** Every input is: prepare the tracker, emit the prefix, drive the detector
      through `DetectorInputs`, emit the suffix. */
  lemma ApplyShape(t: Tracker, input: Input)
    ensures var d := Drive(Prepare(t, input), DetectorInputs(t, input));
            Apply(t, input) == Step(d.t, Prefix(t, input) + d.events + Suffix(t, input, d.t))
  {
    match input
    case Key(note, now) => KeyShape(t, note, now);
    case _ => OtherShape(t, input);
  }

  lemma KeyShape(t: Tracker, note: int, now: Time)
    ensures var input := Key(note, now);
            var d := Drive(Prepare(t, input), DetectorInputs(t, input));
            KeyPressed(t, note, now) == Step(d.t, Prefix(t, input) + d.events + Suffix(t, input, d.t))
  {
    if t.waiting {
      KeyShapeWaiting(t, note, now);
    } else if t.prompt && !t.det.active && t.currentUser == Unknown {
      var input := Key(note, now);
      assert Drive(Prepare(t, input), DetectorInputs(t, input)) == Step(Prepare(t, input), []);
    } else {
      KeyShapeCounted(t, note, now);
    }
  }

  lemma KeyShapeWaiting(t: Tracker, note: int, now: Time)
    requires t.waiting
    ensures var input := Key(note, now);
            var d := Drive(Prepare(t, input), DetectorInputs(t, input));
            KeyPressed(t, note, now) == Step(d.t, Prefix(t, input) + d.events + Suffix(t, input, d.t))
  {
    var input := Key(note, now);
    var d := Drive(Prepare(t, input), DetectorInputs(t, input));
    if note !in t.userNotes {
      assert d == Step(t, []);
    } else {
      assert Suffix(t, input, d.t) == [];
    }
  }

  lemma KeyShapeCounted(t: Tracker, note: int, now: Time)
    requires !t.waiting && !(t.prompt && !t.det.active && t.currentUser == Unknown)
    ensures var input := Key(note, now);
            var d := Drive(Prepare(t, input), DetectorInputs(t, input));
            KeyPressed(t, note, now) == Step(d.t, Prefix(t, input) + d.events + Suffix(t, input, d.t))
  {
    var input := Key(note, now);
    var d := Drive(t, [PD.Note(now)]);
    assert Prepare(t, input) == t && DetectorInputs(t, input) == [PD.Note(now)];
    assert Prefix(t, input) == [];
    assert [] + d.events == d.events;
  }

  lemma OtherShape(t: Tracker, input: Input)
    requires !input.Key?
    ensures var d := Drive(Prepare(t, input), DetectorInputs(t, input));
            Apply(t, input) == Step(d.t, Prefix(t, input) + d.events + Suffix(t, input, d.t))
  {
    var d := Drive(Prepare(t, input), DetectorInputs(t, input));
    assert Suffix(t, input, d.t) == [];
    if DetectorInputs(t, input) == [] {
      assert d == Step(Prepare(t, input), []);
    }
    if !input.Activate? {
      assert Prefix(t, input) == [];
    }
  }

  /** An event that closes a session sits in the driven part of the events. */
  lemma ClosesInMiddle(pre: seq<Event>, mid: seq<Event>, post: seq<Event>, i: int)
    requires forall k :: 0 <= k < |pre| ==> !Closes(pre[k])
    requires forall k :: 0 <= k < |post| ==> !Closes(post[k])
    requires 0 <= i < |pre + mid + post| && Closes((pre + mid + post)[i])
    ensures |pre| <= i < |pre| + |mid| && (pre + mid + post)[i] == mid[i - |pre|]
  {
  }

  /** Every input drives the detector exactly through `DetectorInputs`. */
  lemma ApplyDrivesDetector(t: Tracker, input: Input)
    ensures Apply(t, input).t.det == PD.Run(t.det, DetectorInputs(t, input)).det
  {
    ApplyShape(t, input);
    DriveFacts(Prepare(t, input), DetectorInputs(t, input));
  }

  /** Every session saved to the database is one the detector reported, so it
      lasted at least `minPracticeDuration`. */
  lemma RecordedSessionsAreLong(t: Tracker, input: Input)
    requires PD.Valid(t.det)
    ensures forall i :: 0 <= i < |Apply(t, input).events| && Apply(t, input).events[i].Recorded? ==>
              Apply(t, input).events[i].end - Apply(t, input).events[i].start >= t.det.cfg.minPracticeDuration
  {
    var ins := DetectorInputs(t, input);
    var evs := Apply(t, input).events;
    PD.RunRecordsOnlyLongSessions(t.det, ins);
    var run := PD.Run(t.det, ins);
    forall i | 0 <= i < |evs| && evs[i].Recorded?
      ensures evs[i].end - evs[i].start >= t.det.cfg.minPracticeDuration
    {
      RecordedIsEnded(t, input, i);
      var j :| 0 <= j < |run.signals| && run.signals[j] == PD.Ended(evs[i].start, evs[i].end, evs[i].noteCount);
    }
  }

  lemma RecordedIsEnded(t: Tracker, input: Input, i: int)
    requires 0 <= i < |Apply(t, input).events| && Apply(t, input).events[i].Recorded?
    ensures var e := Apply(t, input).events[i];
            PD.Ended(e.start, e.end, e.noteCount) in PD.Run(t.det, DetectorInputs(t, input)).signals
  {
    var d := Drive(Prepare(t, input), DetectorInputs(t, input));
    ApplyShape(t, input);
    DriveFacts(Prepare(t, input), DetectorInputs(t, input));
    ClosesInMiddle(Prefix(t, input), d.events, Suffix(t, input, d.t), i);
  }

  // ---------------------------------------------------------------------------
  // Properties of the operations

  /** Every input keeps the tracker invariant. */
  lemma ApplyKeepsValid(t: Tracker, input: Input)
    requires Valid(t)
    ensures Valid(Apply(t, input).t)
  {
    var ins := DetectorInputs(t, input);
    ApplyDrivesDetector(t, input);
    RunKeepsValid(t.det, ins);
    ApplyShape(t, input);
    if Prepare(t, input).waiting {
      WaitingInputs(t, input);
      if ins != [] {
        assert PD.Run(t.det, ins).det == PD.Run(PD.Apply(t.det, ins[0]).det, []).det;
      }
    }
  }

  /** An input after which the tracker waits leaves the idle detector idle:
      it drives at most a timeout check or a forced end. */
  lemma WaitingInputs(t: Tracker, input: Input)
    requires Valid(t) && Prepare(t, input).waiting
    ensures t.prompt && !t.det.active
    ensures var ins := DetectorInputs(t, input);
            ins == [] || (|ins| == 1 && (ins[0].Tick? || ins[0].ForceEnd?))
  {
  }

  lemma {:induction false} RunKeepsValid(d: PD.Detector, ins: seq<PD.Input>)
    requires PD.Valid(d)
    ensures PD.Valid(PD.Run(d, ins).det)
    decreases |ins|
  {
    if ins != [] {
      PD.ApplyKeepsValidAnyTime(d, ins[0]);
      RunKeepsValid(PD.Apply(d, ins[0]).det, ins[1..]);
    }
  }

  /** The key press that brings up the prompt is not counted: the detector is
      untouched and the tracker waits. */
  lemma PromptKeyNotCounted(t: Tracker, note: int, now: Time)
    requires !t.waiting && t.prompt && !t.det.active && t.currentUser == Unknown
    ensures KeyPressed(t, note, now) == Step(t.(waiting := true), [PromptShown])
  {
  }

  /** While waiting, a key that selects nobody is ignored entirely. */
  lemma UnmappedKeyIgnoredWhileWaiting(t: Tracker, note: int, now: Time)
    requires t.waiting && note !in t.userNotes
    ensures KeyPressed(t, note, now) == Step(t, [])
  {
  }

  /** A key press that reaches the detector is counted as one note, and the
      web clients hear of activity exactly when a session is running after it:
      the activity notice is the last event and carries the session's info. */
  lemma CountedKeyReportsActivity(t: Tracker, note: int, now: Time)
    requires PD.Valid(t.det)
    requires !t.waiting && !(t.prompt && !t.det.active && t.currentUser == Unknown)
    ensures var s := KeyPressed(t, note, now);
      && s.t.det == PD.ProcessNoteOn(t.det, now).det
      && (!s.t.det.active ==> s.events == [])
      && (s.t.det.active ==> |s.events| > 0 && s.events[|s.events| - 1]
                             == Activity(s.t.currentUser, PD.SessionInfo(s.t.det, now).value))
  {
    var r := PD.ProcessNoteOn(t.det, now);
    var h := OnSignals(t.(det := r.det), r.signals, now);
    assert [PD.Note(now)][1..] == [];
    assert Drive(t, [PD.Note(now)]) == Step(h.t, h.events + []);
    PD.ApplyKeepsValidAnyTime(t.det, PD.Note(now));
    if !r.det.active {
      assert r.signals == [];
      assert h.events == [];
    }
  }

  /** Choosing a user on the piano starts that user's session at once, with the
      selecting key as its first counted note; the web clients are told the
      session started for that user (unless the user is literally "unknown"). */
  lemma SelectionStartsSession(t: Tracker, note: int, now: Time)
    requires Valid(t) && t.waiting && note in t.userNotes
    ensures var s := KeyPressed(t, note, now);
      && s.t.currentUser == t.userNotes[note] && !s.t.waiting
      && s.t.det.active && s.t.det.startTime == Some(now) && s.t.det.noteCount == 1
      && s.events[0] == Confirmed(t.userNotes[note])
      && (t.userNotes[note] != Unknown ==>
            s.events == [Confirmed(t.userNotes[note]),
                         SessionStarted(t.userNotes[note], PD.Info(now, 0, 0, t.det.lastNoteTime))])
  {
    var user := t.userNotes[note];
    var chosen := t.(waiting := false, currentUser := user);
    var h := Drive(chosen, [PD.ForceStart(now)]);
    ForcedStart(chosen, now);
    NoteInSession(h.t, now);
    DrivePair(chosen, PD.ForceStart(now), PD.Note(now));
  }

  /** Forcing a session on an idle detector starts it at `now` and tells the
      web clients, unless the user is "unknown". */
  lemma ForcedStart(t: Tracker, now: Time)
    requires PD.Valid(t.det) && !t.det.active && !t.waiting
    ensures var h := Drive(t, [PD.ForceStart(now)]);
      && h.t == t.(det := h.t.det)
      && h.t.det.active && h.t.det.startTime == Some(now) && h.t.det.noteCount == 0
      && h.t.det.lastNoteTime == t.det.lastNoteTime
      && h.events == (if t.currentUser != Unknown then [SessionStarted(t.currentUser, PD.Info(now, 0, 0, t.det.lastNoteTime))] else [])
  {
    var fs := PD.ForceStartSession(t.det, now);
    assert fs.signals == [PD.Started];
    var h := OnSignals(t.(det := fs.det), fs.signals, now);
    assert h == OnSignal(t.(det := fs.det), PD.Started, now);
  }

  /** A key press during a session is counted and reports nothing. */
  lemma NoteInSession(t: Tracker, now: Time)
    requires t.det.active
    ensures var d := Drive(t, [PD.Note(now)]);
      && d.events == []
      && d.t == t.(det := d.t.det)
      && d.t.det.active && d.t.det.startTime == t.det.startTime && d.t.det.noteCount == t.det.noteCount + 1
  {
    var pn := PD.ProcessNoteOn(t.det, now);
    assert pn.signals == [];
  }

  /** Driving two inputs drives the first, then the second. */
  lemma DrivePair(t: Tracker, a: PD.Input, b: PD.Input)
    ensures var h := Drive(t, [a]);
            var g := Drive(h.t, [b]);
            Drive(t, [a, b]) == Step(g.t, h.events + g.events)
  {
    var d := PD.Apply(t.det, a);
    var first := OnSignals(t.(det := d.det), d.signals, a.at);
    assert [a, b][1..] == [b];
    assert Drive(t, [a]) == Step(first.t, first.events + []);
    assert first.events + [] == first.events;
  }

  /** Activating a user from the web page starts a session for that user
      unless one is running; the user changes either way. */
  lemma ActivateStartsSession(t: Tracker, user: string, now: Time)
    requires Valid(t) && user != "" && user != Unknown
    ensures var r := ActivateUser(t, Some(user), now);
      && r.ok && r.t.currentUser == user && !r.t.waiting && r.t.det.active
      && (!t.det.active ==> r.events == [Confirmed(user), SessionStarted(user, PD.Info(now, 0, 0, t.det.lastNoteTime))])
      && (t.det.active ==> r.events == [Confirmed(user)] && r.t.det == t.det)
  {
    var chosen := t.(currentUser := user, waiting := false);
    var fs := PD.ForceStartSession(chosen.det, now);
    var h := OnSignals(chosen.(det := fs.det), fs.signals, now);
    assert Drive(chosen, [PD.ForceStart(now)]) == Step(h.t, h.events);
    if !t.det.active {
      assert fs.signals == [PD.Started];
    } else {
      assert fs.signals == [];
    }
  }

  /** In prompt mode every session end hands the piano back to "unknown", so the
      next activity prompts again; outside prompt mode only an explicit choice
      changes the user. */
  lemma UserResetAfterSessionEnd(t: Tracker, input: Input)
    ensures var s := Apply(t, input);
      && (t.prompt && (exists i :: 0 <= i < |s.events| && Closes(s.events[i])) ==> s.t.currentUser == Unknown)
      && (!t.prompt && !t.waiting && !input.Activate? && !input.ChooseUser? ==> s.t.currentUser == t.currentUser)
  {
    var d := Drive(Prepare(t, input), DetectorInputs(t, input));
    ApplyShape(t, input);
    DriveFacts(Prepare(t, input), DetectorInputs(t, input));
    var s := Apply(t, input);
    if t.prompt && exists i :: 0 <= i < |s.events| && Closes(s.events[i]) {
      var i :| 0 <= i < |s.events| && Closes(s.events[i]);
      ClosesInMiddle(Prefix(t, input), d.events, Suffix(t, input, d.t), i);
    }
  }

  /** In prompt mode a long session produces two end notices: the record,
      attributed to the user, and then the reset notice, which already carries
      "unknown" because the end callback cleared the user first. */
  lemma LongSessionEndNotices(t: Tracker, start: Time, end: Time, count: int, now: Time)
    requires t.prompt
    ensures OnSignals(t, [PD.Ended(start, end, count), PD.Reset], now).events
         == [Recorded(t.currentUser, start, end, count), ResetNotice(Unknown)]
  {
    var first := OnSignal(t, PD.Ended(start, end, count), now);
    assert [PD.Ended(start, end, count), PD.Reset][1..] == [PD.Reset];
    assert OnSignals(first.t, [PD.Reset], now).events == [ResetNotice(Unknown)];
  }
}
