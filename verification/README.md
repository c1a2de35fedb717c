# pianolog in Dafny

A model of the decision logic of pianolog, a tracker that listens to a digital
piano over MIDI and records practice sessions. The model covers five parts.

- **Practice detector** (`practice_detector.dfy`, module `PracticeDetector`).
  - It is a state machine over the session flag, start time, note count, time
    of the last note and a sliding window of recent note times.
  - A session starts by itself once `activity_threshold` notes fall within
    `activity_window` seconds. It ends after `session_timeout` seconds of
    silence, or when forced.
  - Only sessions of at least `min_practice_duration` seconds are reported to
    `on_session_end`. Every end is reported to `on_session_reset`.
- **MIDI monitor** (`midi_monitor.dfy`, module `MidiMonitor`).
  - It covers port selection, connecting and disconnecting, the health check
    and udev `add`/`remove` events.
  - The reconnect ladder escalates to one USB power cycle after repeated
    failures.
  - Incoming messages are routed to the note and control callbacks.
- **User attribution**: two trackers.
  - The `pianolog` tracker (`tracker.dfy`, module `PracticeTracker`) also
    includes the web requests that choose a user, activate a user and end a
    session.
  - The older console tracker of `main.py` (`legacy_tracker.dfy`, module
    `LegacyTracker`).
  - Both decide who a session belongs to. In prompt mode they hand the piano
    back to "unknown" after every session.
- **Piano user selector** (`user_selector.dfy`, module `UserSelector`). This is
  the note-name conversion and the "first key press on a mapped note wins"
  selection loop. Both identical copies of the source file are modelled here.
- **USB helpers.**
  - `usb_watchdog.dfy` (module `UsbWatchdog`) models the stale-device counter
    of the watchdog loop and the controller walk of `reset_usb_bus`. Both
    copies of the source file are modelled.
  - `usb_reset.dfy` (module `UsbReset`) models how `usb_reset.py` reads the
    `lsusb` listing, builds the device node path and chooses its exit code.

Shared helpers live in `base.dfy` (`Option`, first match of a sequence, clock
ticks) and `text.dfy` (substring search, ASCII lower-casing,
`split()`/`splitlines()`/`split(sep)`/`strip()`). `midi.dfy` holds the MIDI
message type and `decimal.dfy` the decimal printing of octave numbers.

State is always an immutable record, and every operation is a pure function of
it. Clock readings are passed in as positive integer ticks (`Time`). Outcomes
of the outside world become parameters:
- port lists, whether a port opened and the udev action;
- whether a USB reset or rebind worked;
- command outputs, `None` where running the command raised;
- the messages a poll returned.

Callbacks, database writes and web notifications are returned as lists of
events in firing order. A tracker handles each detector callback before the
next detector operation, as the source does.

Behaviour worth noting:
- An automatic session starts at the note that fills the window. Its start time
  is that note's time and its count restarts at zero, so the triggering note
  is not counted.
- The web "activate user" request accepts any non-empty user id, whether or not
  it is a known user.
- In prompt mode the `pianolog` tracker's end callback clears the user before
  the reset callback runs. So after a long session, the reset notice sent to
  web clients names "unknown" (`PracticeTracker.LongSessionEndNotices`).

## Model

| member | source | states |
|---|---|---|
| PracticeDetector.Prune | practice_detector.py:91-93 | The pruned window is a suffix of the old one. Every timestamp dropped lay strictly more than `activity_window` before now, and the first one kept does not. |
| PracticeDetector.PruneKeepsRecent | practice_detector.py:84-93 | On a window in arrival order, pruning keeps the order and keeps only timestamps at most `activity_window` old. |
| PracticeDetector.ProcessNoteOn | practice_detector.py:73-99 | The note becomes the last activity and the window is slid. A session starts exactly when none was active and the window holds `activity_threshold` notes; it starts now with count 0 and fires `on_session_start` once. Otherwise the note is counted and nothing fires. The result is whether a session is active. |
| PracticeDetector.AutoStartNeedsThreshold | practice_detector.py:84-99 | A session that starts by itself had at least `activity_threshold` notes within `activity_window` of the triggering note, and its note count is 0: the triggering note is not counted. |
| PracticeDetector.StartSession | practice_detector.py:132-141 | Marks the session active with start time now and count 0, keeps everything else, and fires `on_session_start`. |
| PracticeDetector.EndSession | practice_detector.py:143-169 | A no-op without an active session. Otherwise the session, count and window are cleared while the last note time is kept. `on_session_end(start, now, count)` fires, once, iff the session lasted at least `min_practice_duration`; `on_session_reset` always fires, once and last; nothing else fires. |
| PracticeDetector.CheckTimeout | practice_detector.py:101-120 | Inactive: returns false and changes nothing. Active: the session ends iff there was a note strictly more than `session_timeout` ago. The result says whether the session is still active. |
| PracticeDetector.ForceEndSession | practice_detector.py:122-125 | A no-op when inactive. With a session active it is exactly `EndSession`: `on_session_end` fires for a long enough session, `on_session_reset` always, and afterwards no session is active. |
| PracticeDetector.ForceStartSession | practice_detector.py:127-130 | A no-op when a session is active. Otherwise it is exactly `StartSession`: the new session starts now with count 0. Afterwards a session is active, and `on_session_start` fired iff none was active before. |
| PracticeDetector.SessionInfo | practice_detector.py:171-187 | None exactly when no session is active. Otherwise it gives the start, the duration (now minus start), the note count and the last activity. |
| PracticeDetector.RunBracketed | practice_detector.py:122-169 | Over any sequence of operations the callbacks are well bracketed: a start only with no session running, an end only inside one and immediately before its reset, and a reset only to close one. |
| PracticeDetector.RunRecordsOnlyLongSessions | practice_detector.py:148-159 | Over any sequence of operations, every session reported to `on_session_end` lasted at least `min_practice_duration` and has a non-negative count. |
| PracticeDetector.RunKeepsValid | practice_detector.py:132-165 | With a clock that never runs backwards, two things hold after any sequence of operations: a session is active exactly when it has a start time, and the window stays ordered and no later than the clock. |
| MidiMonitor.FindDevice | midi_monitor.py:55-83 | None iff the listing failed or no port matches. Otherwise the result is the first matching port. Without a keyword a port matches when it is not "Midi Through"; with one, when it contains the keyword ignoring case. |
| MidiMonitor.MatchIgnoresCase | midi_monitor.py:76-78 | With a keyword, lower-casing the port name does not change whether it matches. |
| MidiMonitor.Connect | midi_monitor.py:85-132 | Succeeds iff a non-empty port is found and opens; it then records that port as connected. A failure leaves the monitor disconnected and keeps the last connected device. When no port is found the open port stays as it was; when opening fails there is no open port afterwards. At most one callback fires: `on_midi_connected` iff it succeeds from disconnected, carrying the name of the port it opened, and `on_midi_disconnected` iff it fails from connected. Counters and flags are untouched. |
| MidiMonitor.Disconnect | midi_monitor.py:134-147 | A no-op without an open port. Otherwise it is exactly `DropPort`: the port is closed, the monitor is disconnected, the disconnect callback fires iff it was connected, and nothing else changes or fires. |
| MidiMonitor.DropPort | midi_monitor.py:302-308 | A failed health check or a read error clears the port and the connection, firing only the disconnect callback and only on a true-to-false edge. The last connected device, the attempt counter, the power-cycle state and the configuration are kept. |
| MidiMonitor.CheckDeviceHealth | midi_monitor.py:149-165 | Healthy iff connected to a named device that the port listing still contains. |
| MidiMonitor.CheckUsbEvents | midi_monitor.py:214-246 | An `add` with no open port clears the attempt counter and the power-cycle flag, then connects. A `remove` clears the counter and drops any open port, firing only the disconnect callback and only if the monitor was connected; the power-cycle state and the last connected device are kept, and without an open port the connection flag is kept too. Every other event changes nothing. |
| MidiMonitor.ProcessMessage | midi_monitor.py:337-364 | A note-on with positive velocity goes to `on_note_on`. A note-on with velocity 0 and a note-off go to `on_note_off`, control change goes to `on_control_change`, and every other message is dropped; each callback gets the message's fields. |
| MidiMonitor.NoteOnsArePresses | midi_monitor.py:345-353 | Every `on_note_on` call in a batch comes from a note-on message with positive velocity on the same note. |
| MidiMonitor.ProcessMessagesAppend | midi_monitor.py:314-315 | Every pending message goes through `_process_message` on its own: the callbacks of two batches in a row are those of the first followed by those of the second. |
| MidiMonitor.ProcessOne | midi_monitor.py:314-315 | A single message yields exactly the callback `_process_message` routes it to, or none. |
| MidiMonitor.PressesAreHeardInOrder | midi_monitor.py:314-315 | The `on_note_on` calls of a batch are exactly its positive-velocity note-ons, each once, in arrival order, with note, velocity and channel. |
| MidiMonitor.Serve | midi_monitor.py:298-315 | The health check runs only once `health_check_interval` has passed since the last one, and then records the time. A failed check drops the port, firing the disconnect callback iff it was connected, and nothing is read. Otherwise the pending messages are read. |
| MidiMonitor.Read | midi_monitor.py:312-326 | A read error drops the port. Otherwise the state is unchanged and the callbacks are those of the pending messages, in order. |
| MidiMonitor.Reconnect | midi_monitor.py:263-296 | Its connect outcome is `connect`'s. Success clears the counter and the power-cycle flag. A failure counts one attempt, and `reset_usb_port` is called iff resets are enabled, the counted attempts reach the limit, no power cycle has happened since the last success and 300 s have passed since the last one. A successful cycle sets the flag, records the time and clears the counter. |
| MidiMonitor.IterateEdges | midi_monitor.py:258-327 | In one turn of the loop, the connected and disconnected callbacks fire only on real changes of `is_connected`, alternating. |
| MidiMonitor.IterateKeepsValid | midi_monitor.py:258-327 | Every turn of the loop keeps the invariant: a connected monitor has its port open, and that port is the last connected device. |
| MidiMonitor.PowerCycleOnlyWhenEscalating | midi_monitor.py:265-284 | A successful power cycle in a turn happens only with no port open and all escalation conditions met. Afterwards the flag is set, the time recorded and the counter zero. |
| MidiMonitor.EscalatesAfterRepeatedFailures | midi_monitor.py:265-280 | With resets enabled, the cooldown over and no power cycle since the last success, the failed connect that reaches the attempt limit calls `reset_usb_port`. |
| MidiMonitor.NoSecondPowerCycle | midi_monitor.py:268-271 | Once a power cycle has been done, a turn with no `add` event and no successful connect attempts none and keeps the flag set. |
| MidiMonitor.AtMostOnePowerCycle | midi_monitor.py:280-296 | Over any run with no `add` event and no successful connect, at most one power cycle succeeds, and none if one had already been done. |
| PracticeTracker.LoadUserNotes | pianolog/tracker.py:62-66 | The map's keys are exactly the trigger notes of the users that are not tombstoned, and each maps to the name of such a user. |
| PracticeTracker.LoadUserNotesFindsEveryUser | pianolog/database.py:290-296 | With trigger notes unique, as the schema requires, every user `get_users` returns is found under their own trigger note. |
| PracticeTracker.OnSignal | pianolog/tracker.py:165-204 | A start notifies the clients, for the current user and with the session info, only when the tracker is not waiting and the user is not "unknown". An end saves exactly one record for the current user with the reported times and count. A reset notifies the clients. In prompt mode, end and reset set the user to "unknown". |
| PracticeTracker.PromptKeyNotCounted | pianolog/tracker.py:143-158 | In prompt mode, with no session and user "unknown", a key press shows the prompt and starts waiting. The detector is untouched. |
| PracticeTracker.UnmappedKeyIgnoredWhileWaiting | pianolog/tracker.py:130-141 | While waiting, a key that maps to no user changes nothing and emits nothing. |
| PracticeTracker.SelectionStartsSession | pianolog/tracker.py:130-140 | While waiting, a mapped key selects its user and stops waiting. A session is forced to start now and the key is counted as its first note. The clients get the confirmation, then the session start for that user. |
| PracticeTracker.CountedKeyReportsActivity | pianolog/tracker.py:160-163 | A key press outside waiting and prompting is one detector note. The activity notice, with the session info, is emitted iff a session is active afterwards. |
| PracticeTracker.ActivateUser | pianolog/web_server.py:101-123 | Accepted iff the user id is present and non-empty. A rejected request changes nothing. |
| PracticeTracker.ActivateStartsSession | pianolog/web_server.py:110-121 | Activating a user sets that user and stops waiting. A session is forced to start, and the clients are told unless one was already running. |
| PracticeTracker.SetUser | pianolog/web_server.py:88-99 | Accepted iff the user id is present and non-empty. An accepted request changes only the current user; nothing is emitted. |
| PracticeTracker.EndRequest | pianolog/web_server.py:209-217 | Accepted iff a session is active. A refused request changes nothing. |
| PracticeTracker.RecordedSessionsAreLong | pianolog/tracker.py:174-189 | Every record an input saves is a session the detector reported. It lasted at least `min_practice_duration`. |
| PracticeTracker.UserResetAfterSessionEnd | pianolog/tracker.py:187-204 | In prompt mode, any input whose events end a session leaves the user "unknown". Outside prompt mode only an explicit choice changes the user. |
| PracticeTracker.ApplyKeepsValid | pianolog/tracker.py:128-163 | Every input keeps the detector invariant. A waiting tracker is always in prompt mode with no session running. |
| PracticeTracker.LongSessionEndNotices | pianolog/tracker.py:182-203 | In prompt mode a long session's end saves a record for the user. The reset notice that follows already names "unknown". |
| LegacyTracker.Init | main.py:49-57 | The tracker starts with user "unknown", not waiting and no session. |
| LegacyTracker.KeyRouting | main.py:136-174 | While waiting, an unmapped key is ignored. In prompt mode, with no session and user "unknown", a key only shows the prompt. Any other key outside waiting is one detector note. |
| LegacyTracker.SelectionIsAnOrdinaryNote | main.py:139-151 | While waiting, a mapped key selects its user, stops waiting and is passed to the detector as an ordinary note, with no forced start. |
| LegacyTracker.LegacySelectionWaitsForThreshold | main.py:139-153 | From a fresh detector, selecting a user on the piano starts no session. The `pianolog` tracker starts one at once (`LegacyTracker.PianologSelectionStarts`). |
| LegacyTracker.OnSignals | main.py:176-203 | Every reported end is saved, and every save is a reported end with the same times and count. The first end is saved for the current user. Outside prompt mode every save names the current user; in prompt mode later saves may name "unknown". In prompt mode any end or reset sets the user to "unknown". Outside prompt mode the user never changes. |
| LegacyTracker.SavedSessionsAreLong | main.py:183-197 | Every session saved lasted at least the minimum duration. |
| LegacyTracker.UserResetAfterSessionEnd | main.py:234-240 | In prompt mode, stopping with a session running, or a timeout, leaves the user "unknown". |
| LegacyTracker.ApplyDrivesDetector | main.py:205-240 | Each input drives at most one detector operation: a key note, a timeout check, or the forced end of `stop`. Every save comes from it. |
| UserSelector.NoteNameRoundTrip | user_selector.py:140-146 | The note name (pitch class, then floor(n/12) - 1 as octave) reads back to the note, so distinct notes get distinct names. |
| UserSelector.NoteNameExamples | pianolog/user_selector.py:140-146 | 60 is "C4", 61 "C#4", 0 "C-1" and 127 "G9". |
| UserSelector.FindPianoPorts | user_selector.py:39-49 | Each result is the first port of its list containing "USB func for MIDI", or None iff there is none. |
| UserSelector.SelectUser | user_selector.py:77-138 | The loop returns what the reference definition `Expected` gives: "unknown" when a port is missing, and whenever the `try` block raises: opening the ports or sending the prompt, reading pending messages, or sending the confirmation chord. Otherwise the user of the first mapped positive-velocity note-on before the timeout, or "unknown". |
| UserSelector.ExpectedIsUserOrUnknown | pianolog/user_selector.py:113-132 | The result is always "unknown" or one of the configured users. |
| UsbWatchdog.DeviceIdSplits | usb_watchdog.py:33 | The device id "vendor:product" splits back into vendor and product. |
| UsbWatchdog.Classify | tools/usb_watchdog.py:134-167 | The four branches of the loop: healthy iff listed and working, stale iff listed and not working, gone iff neither, and the remaining case. |
| UsbWatchdog.Next | usb_watchdog.py:132-165 | A stale check counts up and asks for a replug iff the count reaches 3. Every other check, and the replug itself, resets the count. The count is always below 3 afterwards. |
| UsbWatchdog.Run | usb_watchdog.py:120-174 | Over any sequence of checks, the counter is the length of the current stale streak modulo 3, so always 0, 1 or 2. A replug is requested exactly when a stale streak reaches a multiple of 3. |
| UsbWatchdog.ResetUsbBus | usb_watchdog.py:59-118 | When `find` raised, there is no reset. Otherwise the result is the first target, in path and listing order, whose unbind/bind succeeds. Its path names an xHCI controller ignoring case, and its entry contains ':' and is neither `bind` nor `unbind`. |
| UsbWatchdog.TryController | tools/usb_watchdog.py:87-113 | The devices of one controller are tried in listing order. The result is the first device entry whose rebind succeeds. |
| UsbWatchdog.Candidates | tools/usb_watchdog.py:75-86 | Every target tried is a device entry under an xHCI controller path from the `find` output. |
| UsbReset.ParseLine | usb_reset.py:19-22 | A line of at least four fields gives field 1 as bus and field 3, trailing colons removed, as device. A shorter line gives nothing. |
| UsbReset.FindKawaiUsb | usb_reset.py:12-26 | A result comes from the first line naming "Kawai" or "0f54:0104". There is none when `lsusb` failed, no line matches, or that first line is too short. |
| UsbReset.FindKawaiUsbReadsLine | usb_reset.py:16-22 | Reading the piano's line as `lsusb` prints it gives back exactly the bus and device numbers printed, whatever the description says. |
| UsbReset.ResetPathComponents | usb_reset.py:30 | The device node is "/dev/bus/usb/" + bus + "/" + device, and its last two path components are the bus and device. |
| UsbReset.Run | usb_reset.py:85-114 | Exit 1 without any reset when the piano is not found. Otherwise the found device's node is reset. The exit code is 0 iff the reset worked and the piano is found again. |

## Left out

- SQLite persistence: `save_session` and `get_users` appear only as the `Recorded`/`Saved` events and the `UserRow` list. Queries, statistics and their floating-point rounding are not part of this model.
- The Flask/SocketIO transport: only the state effect of the user, activate and end-session requests is modelled. The web server is assumed enabled. The JSON body's `user_id` is an optional string, not an arbitrary JSON value.
- Hardware and operating-system effects are parameters:
  - `mido` port listing, opening, closing and `iter_pending`;
  - `pyudev` polling;
  - `subprocess` calls to `lsusb`, `find`, `ls`, `tee` and `uhubctl`;
  - `reset_usb_port` and `reset_usb_device` (including the sysfs fallback).
- The prompt melody and the confirmation chord are events; which notes they play, and every `time.sleep`, are not modelled.
- Threads are not modelled: the timeout-checker thread is an explicit `Tick` input, and the blocking monitor loop is a sequence of turns.
- Floating-point time: timestamps are positive integer ticks. Python's truthiness test on a start or last-note time of 0.0 cannot arise and is not modelled.
- `str.lower()` is modelled for ASCII letters only.
- The CLI (`pianolog/cli.py`, `main.main()`), `config.py` constants beyond the defaults used here, and the manual MIDI and web test scripts are not part of this model.
- `force_reconnect_with_power_cycle`, which the web server calls, is not modelled: `midi_monitor.py` does not define it.
- The monitor's outer loop control (`running`, `stop`) and the final `disconnect` after the loop are not modelled; `MidiMonitor.Disconnect` models that call on its own.
- Exception handlers around whole operations are not modelled. An exception inside `find_device`, `connect` or the health check is modelled as a failed outcome. When `iter_pending` raises, the whole batch of that turn is dropped: the callbacks the source already fired for messages read before the exception are not modelled. `reset_usb_bus`'s outer handler for a raising `ls` is not modelled; `ls` always yields a listing.
- `_on_midi_connected` and `_on_midi_disconnected` in the trackers only forward notices; they are the monitor's `Connected`/`Disconnected` notices.
- UserSelector.SelectUser: an exception while listing the ports (`_find_piano_ports`, called before the `try`) propagates to the caller; the model takes the port lists as given and cannot express that.
- UsbWatchdog.Candidates: does not state that each device came from its controller's listing. That fact is kept by `UsbWatchdog.Pairs` for one controller, and `UsbWatchdog.ResetUsbBus` states the full result through `Find`.
- Text.Strip: has no contract of its own; `Text.StripSlice` states what it returns.
