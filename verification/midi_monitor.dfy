/** `MidiMonitor`: finds the piano's MIDI input, keeps it connected, escalates
    to a USB power cycle after repeated failures, and routes incoming messages.

    Everything the monitor asks the outside world is an input here: the port
    list `mido.get_input_names()` returns (`None` when that call raises),
    whether `mido.open_input` succeeds, the action of the polled udev event,
    whether `reset_usb_port` succeeds, the messages `iter_pending()` yields
    (`None` when reading raises) and the clock. Callbacks and the power-cycle
    action are returned as `Notice`s, in order. */
module MidiMonitor {
  import opened Base
  import opened Text
  import opened Midi

  datatype Config = Config(deviceKeyword: string, healthCheckInterval: int,
                           enableUsbReset: bool, maxReconnectAttemptsBeforeReset: int)

  /** The constructor's defaults. */
  const Defaults: Config := Config("USB func for MIDI", 2, true, 3)

  /** Seconds that must pass after a power cycle before the next one. */
  const ResetCooldown: int := 300

  /** The port the monitor skips when no keyword is configured. */
  const ThroughPort: string := "Midi Through"

  datatype Monitor = Monitor(
    cfg: Config,
    inport: Option<string>,              // the open port, by name
    isConnected: bool,
    lastConnectedDevice: Option<string>,
    lastHealthCheck: int,
    reconnectAttempts: int,
    usbResetPerformed: bool,
    lastUsbResetTime: int
  )

  /** A freshly constructed monitor. */
  function Init(cfg: Config): Monitor {
    Monitor(cfg, None, false, None, 0, 0, false, 0)
  }

  /** Callbacks fired and power cycles attempted. */
  datatype Notice =
    | Connected(device: string)            // on_midi_connected
    | Disconnected                         // on_midi_disconnected
    | NoteOnHeard(note: int, velocity: int, channel: int)   // on_note_on
    | NoteOffHeard(note: int, channel: int)                 // on_note_off
    | ControlHeard(control: int, value: int)                // on_control_change
    | PowerCycle(succeeded: bool)          // reset_usb_port was called

  datatype Step = Step(m: Monitor, notices: seq<Notice>)
  datatype Reply = Reply(m: Monitor, notices: seq<Notice>, ok: bool)

  /** The state invariant: a connected monitor has its port open, and the open
      port is the device it last connected to; attempts are never negative. */
  predicate Valid(m: Monitor) {
    && (m.isConnected ==> m.inport.Some? && m.lastConnectedDevice == m.inport)
    && m.reconnectAttempts >= 0
  }

  // ---------------------------------------------------------------------------
  // Device discovery

  /** The port test `find_device` applies: without a keyword, any port but
      "Midi Through"; with one, a case-insensitive substring match. */
  predicate Matches(keyword: string, port: string) {
    if keyword == "" then !Contains(port, ThroughPort)
    else Contains(Lower(port), Lower(keyword))
  }

  /** `find_device`: the first matching port of the listing, `None` when the
      listing failed, is empty, or has no matching port. */
  function FindDevice(keyword: string, ports: Option<seq<string>>): (r: Option<string>)
    ensures r.None? <==> ports.None? || forall i :: 0 <= i < |ports.value| ==> !Matches(keyword, ports.value[i])
    ensures r.Some? ==> exists i :: 0 <= i < |ports.value| && ports.value[i] == r.value
                                    && Matches(keyword, r.value)
                                    && forall j :: 0 <= j < i ==> !Matches(keyword, ports.value[j])
  {
    if ports.None? || ports.value == [] then None
    else Find(ports.value, p => Matches(keyword, p))
  }

  /** With a keyword, a port matches whatever the case of its name. */
  lemma MatchIgnoresCase(keyword: string, port: string)
    requires keyword != ""
    ensures Matches(keyword, Lower(port)) <==> Matches(keyword, port)
  {
    LowerIdempotent(port);
  }

  // ---------------------------------------------------------------------------
  // Connecting and disconnecting

  /** `connect`. */
  function Connect(m: Monitor, ports: Option<seq<string>>, openOk: bool): (r: Reply)
    ensures var found := FindDevice(m.cfg.deviceKeyword, ports);
      && (r.ok <==> found.Some? && found.value != "" && openOk)
      && (r.ok ==> r.m.isConnected && r.m.inport == found && r.m.lastConnectedDevice == found)
      && (!r.ok ==> !r.m.isConnected && r.m.lastConnectedDevice == m.lastConnectedDevice)
      && (found.None? || found.value == "" ==> r.m.inport == m.inport)
      && (found.Some? && found.value != "" && !openOk ==> r.m.inport.None?)
    ensures (exists d :: Connected(d) in r.notices) <==> r.ok && !m.isConnected
    ensures Disconnected in r.notices <==> !r.ok && m.isConnected
    ensures |r.notices| <= 1 && forall n :: n in r.notices ==> n.Connected? || n.Disconnected?
    ensures r.ok && !m.isConnected ==> r.notices == [Connected(r.m.inport.value)]
    ensures r.m.cfg == m.cfg && r.m.reconnectAttempts == m.reconnectAttempts
    ensures r.m.usbResetPerformed == m.usbResetPerformed && r.m.lastUsbResetTime == m.lastUsbResetTime
    ensures r.m.lastHealthCheck == m.lastHealthCheck
  {
    var found := FindDevice(m.cfg.deviceKeyword, ports);
    if found.None? || found.value == "" then
      Reply(m.(isConnected := false), if m.isConnected then [Disconnected] else [], false)
    else if !openOk then
      Reply(m.(inport := None, isConnected := false), if m.isConnected then [Disconnected] else [], false)
    else
      var port := found.value;
      Reply(m.(inport := Some(port), isConnected := true, lastConnectedDevice := Some(port)),
            if m.isConnected then [] else [Connected(port)], true)
  }

  /** The fields only the reconnect ladder and the health check change are the
      same in `m` and `m'`: configuration, health-check time and power-cycle
      state. */
  predicate Unescalated(m: Monitor, m': Monitor) {
    && m'.cfg == m.cfg && m'.lastHealthCheck == m.lastHealthCheck
    && m'.usbResetPerformed == m.usbResetPerformed && m'.lastUsbResetTime == m.lastUsbResetTime
  }

  /** Closing the port (when one is open): afterwards no port is open and the
      monitor is disconnected, with `Disconnected` fired only if it was connected. */
  function DropPort(m: Monitor): (s: Step)
    requires m.inport.Some?
    ensures s.m.inport.None? && !s.m.isConnected
    ensures s.notices == if m.isConnected then [Disconnected] else []
    ensures Unescalated(m, s.m) && s.m.lastConnectedDevice == m.lastConnectedDevice
            && s.m.reconnectAttempts == m.reconnectAttempts
  {
    Step(m.(inport := None, isConnected := false), if m.isConnected then [Disconnected] else [])
  }

  /** `disconnect`: does nothing when no port is open. */
  function Disconnect(m: Monitor): (s: Step)
    ensures m.inport.None? ==> s == Step(m, [])
    ensures m.inport.Some? ==> s == DropPort(m)
    ensures m.inport.Some? ==> s.m.inport.None? && !s.m.isConnected
    ensures Disconnected in s.notices <==> m.inport.Some? && m.isConnected
  {
    if m.inport.Some? then DropPort(m) else Step(m, [])
  }

  /** `check_device_health`: true only for a connected monitor whose device is
      still listed. */
  function CheckDeviceHealth(m: Monitor, ports: Option<seq<string>>): (healthy: bool)
    ensures healthy <==> m.isConnected && m.lastConnectedDevice.Some? && m.lastConnectedDevice.value != ""
                         && ports.Some? && m.lastConnectedDevice.value in ports.value
  {
    if !m.isConnected || m.lastConnectedDevice.None? || m.lastConnectedDevice.value == "" then false
    else if ports.None? then false
    else m.lastConnectedDevice.value in ports.value
  }

  // ---------------------------------------------------------------------------
  // USB events

  /** The action of the udev event `monitor.poll` returned, if any. */
  datatype UsbAction = NoEvent | Add | Remove | OtherAction(name: string)

  /** `check_usb_events`. An `add` while no port is open clears the attempt
      counter and the power-cycle flag and connects; a `remove` clears only the
      counter and drops the port. */
  function CheckUsbEvents(m: Monitor, action: UsbAction, ports: Option<seq<string>>, openOk: bool): (s: Step)
    ensures action.Add? && m.inport.None? ==>
      var c := Connect(m.(reconnectAttempts := 0, usbResetPerformed := false), ports, openOk);
      s == Step(c.m, c.notices)
    ensures action.Remove? ==>
      && s.m.reconnectAttempts == 0 && Unescalated(m, s.m)
      && s.m.lastConnectedDevice == m.lastConnectedDevice
      && s.m.inport.None? && (s.m.isConnected <==> m.isConnected && m.inport.None?)
      && s.notices == (if m.inport.Some? && m.isConnected then [Disconnected] else [])
    ensures !(action.Add? && m.inport.None?) && !action.Remove? ==> s == Step(m, [])
  {
    match action
    case Add =>
      if m.inport.None? then
        var c := Connect(m.(reconnectAttempts := 0, usbResetPerformed := false), ports, openOk);
        Step(c.m, c.notices)
      else Step(m, [])
    case Remove =>
      var cleared := m.(reconnectAttempts := 0);
      if cleared.inport.Some? then DropPort(cleared) else Step(cleared, [])
    case _ => Step(m, [])
  }

  // ---------------------------------------------------------------------------
  // Message routing

  /** `_process_message`: note-on with a positive velocity goes to `on_note_on`;
      note-on with velocity 0 and note-off go to `on_note_off`; control change
      goes to `on_control_change`; anything else is dropped. */
  function ProcessMessage(msg: Message): (r: Option<Notice>)
    ensures r.Some? && r.value.NoteOnHeard? <==> msg.NoteOn? && msg.velocity > 0
    ensures r.Some? && r.value.NoteOffHeard? <==> (msg.NoteOn? && msg.velocity <= 0) || msg.NoteOff?
    ensures r.Some? && r.value.ControlHeard? <==> msg.ControlChange?
    ensures r.None? <==> msg.Other?
    ensures r.Some? && r.value.NoteOnHeard? ==>
              r.value == NoteOnHeard(msg.note, msg.velocity, msg.channel)
    ensures r.Some? && r.value.NoteOffHeard? ==> r.value == NoteOffHeard(msg.note, msg.channel)
    ensures r.Some? && r.value.ControlHeard? ==> r.value == ControlHeard(msg.control, msg.value)
  {
    match msg
    case NoteOn(note, velocity, channel) =>
      if velocity > 0 then Some(NoteOnHeard(note, velocity, channel)) else Some(NoteOffHeard(note, channel))
    case NoteOff(note, _, channel) => Some(NoteOffHeard(note, channel))
    case ControlChange(_, control, value) => Some(ControlHeard(control, value))
    case Other(_) => None
  }

  /** The callbacks for a batch of pending messages, in arrival order. */
  function ProcessMessages(msgs: seq<Message>): (r: seq<Notice>)
    ensures |r| <= |msgs|
    ensures forall i :: 0 <= i < |r| ==> r[i].NoteOnHeard? || r[i].NoteOffHeard? || r[i].ControlHeard?
  {
    if msgs == [] then []
    else
      var head := ProcessMessage(msgs[0]);
      (if head.Some? then [head.value] else []) + ProcessMessages(msgs[1..])
  }

  /** A batch is handled message by message: the callbacks for two batches in
      a row are those of the first followed by those of the second. */
  lemma {:induction false} ProcessMessagesAppend(a: seq<Message>, b: seq<Message>)
    ensures ProcessMessages(a + b) == ProcessMessages(a) + ProcessMessages(b)
    decreases |a|
  {
    if a == [] {
      assert a + b == b;
    } else {
      assert (a + b)[0] == a[0];
      assert (a + b)[1..] == a[1..] + b;
      ProcessMessagesAppend(a[1..], b);
    }
  }

  /** One pending message reaches `_process_message` on its own. */
  lemma ProcessOne(msg: Message)
    ensures ProcessMessages([msg]) == if ProcessMessage(msg).Some? then [ProcessMessage(msg).value] else []
  {
    assert [msg][1..] == [];
  }

  /** The key presses of a batch, in arrival order, as (note, velocity, channel). */
  function Presses(msgs: seq<Message>): seq<(int, int, int)> {
    if msgs == [] then []
    else (if msgs[0].NoteOn? && msgs[0].velocity > 0 then [(msgs[0].note, msgs[0].velocity, msgs[0].channel)] else [])
         + Presses(msgs[1..])
  }

  /** The `on_note_on` calls among `ns`, in order, as (note, velocity, channel). */
  function Heard(ns: seq<Notice>): seq<(int, int, int)> {
    if ns == [] then []
    else (if ns[0].NoteOnHeard? then [(ns[0].note, ns[0].velocity, ns[0].channel)] else []) + Heard(ns[1..])
  }

  lemma {:induction false} HeardAppend(a: seq<Notice>, b: seq<Notice>)
    ensures Heard(a + b) == Heard(a) + Heard(b)
    decreases |a|
  {
    if a == [] {
      assert a + b == b;
    } else {
      assert (a + b)[0] == a[0];
      assert (a + b)[1..] == a[1..] + b;
      HeardAppend(a[1..], b);
    }
  }

  /** Every key press of a batch reaches `on_note_on`, exactly once and in
      arrival order, and nothing else does. */
  lemma {:induction false} PressesAreHeardInOrder(msgs: seq<Message>)
    ensures Heard(ProcessMessages(msgs)) == Presses(msgs)
    decreases |msgs|
  {
    if msgs != [] {
      var head := ProcessMessage(msgs[0]);
      var front := if head.Some? then [head.value] else [];
      PressesAreHeardInOrder(msgs[1..]);
      HeardAppend(front, ProcessMessages(msgs[1..]));
      if head.Some? {
        assert [head.value][1..] == [];
      }
    }
  }

  /** Every `on_note_on` call comes from a note-on message with positive
      velocity: a released key never counts as a played note. */
  lemma {:induction false} NoteOnsArePresses(msgs: seq<Message>)
    ensures forall i :: 0 <= i < |ProcessMessages(msgs)| && ProcessMessages(msgs)[i].NoteOnHeard? ==>
              exists j :: 0 <= j < |msgs| && msgs[j].NoteOn? && msgs[j].velocity > 0
                          && msgs[j].note == ProcessMessages(msgs)[i].note
  {
    if msgs != [] {
      NoteOnsArePresses(msgs[1..]);
      var head := ProcessMessage(msgs[0]);
      var front := if head.Some? then [head.value] else [];
      var r := ProcessMessages(msgs);
      forall i | 0 <= i < |r| && r[i].NoteOnHeard?
        ensures exists j :: 0 <= j < |msgs| && msgs[j].NoteOn? && msgs[j].velocity > 0 && msgs[j].note == r[i].note
      {
        if i < |front| {
          assert r[i] == head.value;
        } else {
          assert r[i] == ProcessMessages(msgs[1..])[i - |front|];
          var j :| 0 <= j < |msgs[1..]| && msgs[1..][j].NoteOn? && msgs[1..][j].velocity > 0
                   && msgs[1..][j].note == r[i].note;
          assert msgs[j + 1] == msgs[1..][j];
        }
      }
    }
  }

  // ---------------------------------------------------------------------------
  // One turn of the monitoring loop in `start`

  /** Everything one turn of the loop learns from the outside world. */
  datatype Tick = Tick(
    now: Time,
    usb: UsbAction,
    usbPorts: Option<seq<string>>,    // listing seen by the connect an `add` triggers
    usbOpenOk: bool,
    ports: Option<seq<string>>,       // listing seen by the loop's own connect
    openOk: bool,
    resetOk: bool,                    // outcome of reset_usb_port, if it is called
    healthPorts: Option<seq<string>>, // listing seen by the health check
    read: Option<seq<Message>>        // pending messages, None when reading raised
  )

  /** Whether a failed connect escalates to a power cycle: enabled, at least
      `maxReconnectAttemptsBeforeReset` failures counted, no power cycle since
      the last successful connect, and the last one at least 300 s ago. */
  predicate Escalates(m: Monitor, now: Time) {
    && m.cfg.enableUsbReset
    && m.reconnectAttempts >= m.cfg.maxReconnectAttemptsBeforeReset
    && !m.usbResetPerformed
    && now - m.lastUsbResetTime >= ResetCooldown
  }

  /** The reconnect branch of the loop, run when no port is open: count the
      failure and maybe power-cycle, or clear the counters on success. */
  function Reconnect(m: Monitor, t: Tick): (r: Reply)
    ensures var c := Connect(m, t.ports, t.openOk);
            r.ok == c.ok && r.m.inport == c.m.inport && r.m.isConnected == c.m.isConnected
    ensures r.ok ==> r.m.reconnectAttempts == 0 && !r.m.usbResetPerformed
    ensures var failed := m.(reconnectAttempts := m.reconnectAttempts + 1);
      && (!r.ok && Escalates(failed, t.now) && t.resetOk ==>
            r.m.usbResetPerformed && r.m.lastUsbResetTime == t.now && r.m.reconnectAttempts == 0)
      && (!r.ok && !(Escalates(failed, t.now) && t.resetOk) ==>
            r.m.reconnectAttempts == m.reconnectAttempts + 1
            && r.m.usbResetPerformed == m.usbResetPerformed && r.m.lastUsbResetTime == m.lastUsbResetTime)
    ensures (exists ok :: PowerCycle(ok) in r.notices) <==> !r.ok && Escalates(m.(reconnectAttempts := m.reconnectAttempts + 1), t.now)
    ensures PowerCycle(true) in r.notices <==> !r.ok && Escalates(m.(reconnectAttempts := m.reconnectAttempts + 1), t.now) && t.resetOk
  {
    var c := Connect(m, t.ports, t.openOk);
    if c.ok then
      Reply(c.m.(reconnectAttempts := 0, usbResetPerformed := false), c.notices, true)
    else
      var failed := c.m.(reconnectAttempts := c.m.reconnectAttempts + 1);
      if Escalates(failed, t.now) then
        if t.resetOk then
          Reply(failed.(usbResetPerformed := true, lastUsbResetTime := t.now, reconnectAttempts := 0),
                c.notices + [PowerCycle(true)], false)
        else
          Reply(failed, c.notices + [PowerCycle(false)], false)
      else
        Reply(failed, c.notices, false)
  }

  /** The part of the loop after a port is known to be open: the periodic
      health check, then reading pending messages. */
  function Serve(m: Monitor, t: Tick): (s: Step)
    requires m.inport.Some?
    ensures t.now - m.lastHealthCheck < m.cfg.healthCheckInterval ==> s == Read(m, t)
    ensures t.now - m.lastHealthCheck >= m.cfg.healthCheckInterval ==>
      && s.m.lastHealthCheck == t.now
      && (CheckDeviceHealth(m, t.healthPorts) ==> s == Read(m.(lastHealthCheck := t.now), t))
      && (!CheckDeviceHealth(m, t.healthPorts) ==>
            s == DropPort(m.(lastHealthCheck := t.now)) && s.notices == (if m.isConnected then [Disconnected] else []))
  {
    if t.now - m.lastHealthCheck >= m.cfg.healthCheckInterval then
      var checked := m.(lastHealthCheck := t.now);
      if !CheckDeviceHealth(checked, t.healthPorts) then DropPort(checked)
      else Read(checked, t)
    else Read(m, t)
  }

  /** Reading the pending messages: a read error drops the port; otherwise
      the state is kept and every message is routed, in order. */
  function Read(m: Monitor, t: Tick): (s: Step)
    requires m.inport.Some?
    ensures t.read.None? ==> s == DropPort(m)
    ensures t.read.Some? ==> s.m == m && s.notices == ProcessMessages(t.read.value)
  {
    if t.read.None? then DropPort(m) else Step(m, ProcessMessages(t.read.value))
  }

  /** One turn of the `while self.running` loop. */
  function Iterate(m: Monitor, t: Tick): Step {
    var u := CheckUsbEvents(m, t.usb, t.usbPorts, t.usbOpenOk);
    if u.m.inport.None? then
      var r := Reconnect(u.m, t);
      if !r.ok then Step(r.m, u.notices + r.notices)
      else
        var s := Serve(r.m, t);
        Step(s.m, u.notices + r.notices + s.notices)
    else
      var s := Serve(u.m, t);
      Step(s.m, u.notices + s.notices)
  }

  // ---------------------------------------------------------------------------
  // Connection edges

  /** Connectivity callbacks fire only on real edges: starting from `c`,
      `Connected` only while disconnected, `Disconnected` only while connected;
      `final` is the connectivity at the end. */
  predicate Edges(c: bool, ns: seq<Notice>, final: bool)
    decreases |ns|
  {
    if ns == [] then final == c
    else match ns[0]
      case Connected(_) => !c && Edges(true, ns[1..], final)
      case Disconnected => c && Edges(false, ns[1..], final)
      case _ => Edges(c, ns[1..], final)
  }

  lemma {:induction false} EdgesAppend(a: bool, s1: seq<Notice>, b: bool, s2: seq<Notice>, c: bool)
    requires Edges(a, s1, b) && Edges(b, s2, c)
    ensures Edges(a, s1 + s2, c)
    decreases |s1|
  {
    if s1 == [] {
      assert s1 + s2 == s2;
    } else {
      assert (s1 + s2)[0] == s1[0];
      assert (s1 + s2)[1..] == s1[1..] + s2;
      match s1[0]
      case Connected(_) => EdgesAppend(true, s1[1..], b, s2, c);
      case Disconnected => EdgesAppend(false, s1[1..], b, s2, c);
      case _ => EdgesAppend(a, s1[1..], b, s2, c);
    }
  }

  /** Message callbacks never touch connectivity. */
  lemma {:induction false} MessagesAreNotEdges(c: bool, msgs: seq<Message>)
    ensures Edges(c, ProcessMessages(msgs), c)
  {
    if msgs != [] {
      MessagesAreNotEdges(c, msgs[1..]);
      var head := ProcessMessage(msgs[0]);
      var front := if head.Some? then [head.value] else [];
      assert Edges(c, front, c);
      EdgesAppend(c, front, c, ProcessMessages(msgs[1..]), c);
    }
  }

  lemma ConnectEdges(m: Monitor, ports: Option<seq<string>>, openOk: bool)
    ensures var r := Connect(m, ports, openOk); Edges(m.isConnected, r.notices, r.m.isConnected)
  {
  }

  lemma ReconnectEdges(m: Monitor, t: Tick)
    ensures var r := Reconnect(m, t); Edges(m.isConnected, r.notices, r.m.isConnected)
  {
    var c := Connect(m, t.ports, t.openOk);
    ConnectEdges(m, t.ports, t.openOk);
    if !c.ok {
      EdgesAppend(m.isConnected, c.notices, c.m.isConnected, [PowerCycle(t.resetOk)], c.m.isConnected);
    }
  }

  lemma ServeEdges(m: Monitor, t: Tick)
    requires m.inport.Some?
    ensures var s := Serve(m, t); Edges(m.isConnected, s.notices, s.m.isConnected)
  {
    if t.read.Some? {
      MessagesAreNotEdges(m.isConnected, t.read.value);
    }
  }

  lemma UsbEdges(m: Monitor, t: Tick)
    ensures var u := CheckUsbEvents(m, t.usb, t.usbPorts, t.usbOpenOk); Edges(m.isConnected, u.notices, u.m.isConnected)
  {
    if t.usb.Add? && m.inport.None? {
      ConnectEdges(m.(reconnectAttempts := 0, usbResetPerformed := false), t.usbPorts, t.usbOpenOk);
    }
  }

  /** One turn of the loop fires `on_midi_connected` and `on_midi_disconnected`
      only on real changes of `is_connected`, and they alternate. */
  lemma IterateEdges(m: Monitor, t: Tick)
    ensures Edges(m.isConnected, Iterate(m, t).notices, Iterate(m, t).m.isConnected)
  {
    var u := CheckUsbEvents(m, t.usb, t.usbPorts, t.usbOpenOk);
    UsbEdges(m, t);
    if u.m.inport.None? {
      var r := Reconnect(u.m, t);
      ReconnectEdges(u.m, t);
      EdgesAppend(m.isConnected, u.notices, u.m.isConnected, r.notices, r.m.isConnected);
      if r.ok {
        ServeEdges(r.m, t);
        var s := Serve(r.m, t);
        EdgesAppend(m.isConnected, u.notices + r.notices, r.m.isConnected, s.notices, s.m.isConnected);
      }
    } else {
      ServeEdges(u.m, t);
      var s := Serve(u.m, t);
      EdgesAppend(m.isConnected, u.notices, u.m.isConnected, s.notices, s.m.isConnected);
    }
  }

  /** Every turn of the loop keeps the state invariant. */
  lemma IterateKeepsValid(m: Monitor, t: Tick)
    requires Valid(m)
    ensures Valid(Iterate(m, t).m)
  {
    var u := CheckUsbEvents(m, t.usb, t.usbPorts, t.usbOpenOk);
    UsbKeepsValid(m, t);
    if u.m.inport.None? {
      var r := Reconnect(u.m, t);
      ReconnectKeepsValid(u.m, t);
      if r.ok {
        ServeKeepsValid(r.m, t);
      }
    } else {
      ServeKeepsValid(u.m, t);
    }
  }

  lemma UsbKeepsValid(m: Monitor, t: Tick)
    requires Valid(m)
    ensures Valid(CheckUsbEvents(m, t.usb, t.usbPorts, t.usbOpenOk).m)
  {
  }

  lemma ReconnectKeepsValid(m: Monitor, t: Tick)
    requires Valid(m)
    ensures Valid(Reconnect(m, t).m)
    ensures Reconnect(m, t).ok ==> Reconnect(m, t).m.inport.Some?
  {
  }

  lemma ServeKeepsValid(m: Monitor, t: Tick)
    requires Valid(m) && m.inport.Some?
    ensures Valid(Serve(m, t).m)
  {
  }

  // ---------------------------------------------------------------------------
  // Escalation

  /** A successful power cycle happens only when the escalation conditions hold
      for the counted failure, and it records the time, sets the flag and
      clears the counter. */
  lemma PowerCycleOnlyWhenEscalating(m: Monitor, t: Tick)
    requires PowerCycle(true) in Iterate(m, t).notices
    ensures var u := CheckUsbEvents(m, t.usb, t.usbPorts, t.usbOpenOk).m;
            && u.inport.None?
            && Escalates(u.(reconnectAttempts := u.reconnectAttempts + 1), t.now)
            && t.now - u.lastUsbResetTime >= ResetCooldown
            && Iterate(m, t).m.usbResetPerformed
            && Iterate(m, t).m.lastUsbResetTime == t.now
            && Iterate(m, t).m.reconnectAttempts == 0
  {
    var u := CheckUsbEvents(m, t.usb, t.usbPorts, t.usbOpenOk);
    assert forall n :: n in u.notices ==> !n.PowerCycle?;
    if u.m.inport.Some? {
      ServeNoPowerCycle(u.m, t);
      assert false;
    }
    var r := Reconnect(u.m, t);
    if r.ok {
      ServeNoPowerCycle(r.m, t);
      assert false;
    }
  }

  lemma ServeNoPowerCycle(m: Monitor, t: Tick)
    requires m.inport.Some?
    ensures forall n :: n in Serve(m, t).notices ==> !n.PowerCycle?
  {
    if t.read.Some? {
      var r := ProcessMessages(t.read.value);
      assert forall i :: 0 <= i < |r| ==> !r[i].PowerCycle?;
    }
  }

  /** The `n`-th consecutive failed connect escalates: with resets enabled, no
      power cycle since the last success and the cooldown over, a turn that
      starts with `maxReconnectAttemptsBeforeReset - 1` failures counted and
      fails again calls `reset_usb_port`. */
  lemma EscalatesAfterRepeatedFailures(m: Monitor, t: Tick)
    requires m.inport.None? && t.usb.NoEvent?
    requires m.cfg.enableUsbReset && !m.usbResetPerformed
    requires m.reconnectAttempts == m.cfg.maxReconnectAttemptsBeforeReset - 1
    requires t.now - m.lastUsbResetTime >= ResetCooldown
    requires !Connect(m, t.ports, t.openOk).ok
    ensures PowerCycle(t.resetOk) in Iterate(m, t).notices
  {
    var r := Reconnect(m, t);
    assert r.notices[|r.notices| - 1] == PowerCycle(t.resetOk);
  }

  /** Once a power cycle has been done, no further one happens in a turn with
      no `add` event whose connect fails; the flag stays set. */
  lemma NoSecondPowerCycle(m: Monitor, t: Tick)
    requires Valid(m) && m.usbResetPerformed && !t.usb.Add?
    requires forall d :: Connected(d) !in Iterate(m, t).notices
    ensures forall ok :: PowerCycle(ok) !in Iterate(m, t).notices
    ensures Iterate(m, t).m.usbResetPerformed
  {
    var u := CheckUsbEvents(m, t.usb, t.usbPorts, t.usbOpenOk);
    assert u.m.usbResetPerformed;
    if u.m.inport.None? {
    } else {
      ServeNoPowerCycle(u.m, t);
    }
  }

  /** A run of the loop over several turns. */
  function Run(m: Monitor, ticks: seq<Tick>): Step
    decreases |ticks|
  {
    if ticks == [] then Step(m, [])
    else
      var first := Iterate(m, ticks[0]);
      var rest := Run(first.m, ticks[1..]);
      Step(rest.m, first.notices + rest.notices)
  }

  function CountPowerCycles(ns: seq<Notice>): nat {
    if ns == [] then 0
    else (if ns[0] == PowerCycle(true) then 1 else 0) + CountPowerCycles(ns[1..])
  }

  lemma CountAppend(a: seq<Notice>, b: seq<Notice>)
    ensures CountPowerCycles(a + b) == CountPowerCycles(a) + CountPowerCycles(b)
  {
    if a == [] {
      assert a + b == b;
    } else {
      assert (a + b)[1..] == a[1..] + b;
      CountAppend(a[1..], b);
    }
  }

  lemma CountAtMostOne(ns: seq<Notice>)
    requires forall i, j :: 0 <= i < j < |ns| ==> !(ns[i] == PowerCycle(true) && ns[j] == PowerCycle(true))
    ensures CountPowerCycles(ns) <= 1
  {
    if ns != [] {
      if ns[0] == PowerCycle(true) {
        assert forall j :: 0 <= j < |ns[1..]| ==> ns[1..][j] != PowerCycle(true) by {
          forall j | 0 <= j < |ns[1..]| ensures ns[1..][j] != PowerCycle(true) {
            assert ns[1..][j] == ns[j + 1];
          }
        }
        CountZero(ns[1..]);
      } else {
        assert forall i, j :: 0 <= i < j < |ns[1..]| ==> !(ns[1..][i] == PowerCycle(true) && ns[1..][j] == PowerCycle(true)) by {
          forall i, j | 0 <= i < j < |ns[1..]| ensures !(ns[1..][i] == PowerCycle(true) && ns[1..][j] == PowerCycle(true)) {
            assert ns[1..][i] == ns[i + 1] && ns[1..][j] == ns[j + 1];
          }
        }
        CountAtMostOne(ns[1..]);
      }
    }
  }

  lemma CountZero(ns: seq<Notice>)
    requires forall j :: 0 <= j < |ns| ==> ns[j] != PowerCycle(true)
    ensures CountPowerCycles(ns) == 0
  {
    if ns != [] {
      assert forall j :: 0 <= j < |ns[1..]| ==> ns[1..][j] == ns[j + 1];
      CountZero(ns[1..]);
    }
  }

  /** Between two successful connects, and with no USB `add` event, at most one
      power cycle succeeds: a run whose turns see no `add` and fire no
      `Connected` contains at most one, and none if one was already done. */
  lemma {:induction false} AtMostOnePowerCycle(m: Monitor, ticks: seq<Tick>)
    requires Valid(m)
    requires forall i :: 0 <= i < |ticks| ==> !ticks[i].usb.Add?
    requires forall d :: Connected(d) !in Run(m, ticks).notices
    ensures CountPowerCycles(Run(m, ticks).notices) <= (if m.usbResetPerformed then 0 else 1)
    ensures m.usbResetPerformed ==> Run(m, ticks).m.usbResetPerformed
    ensures CountPowerCycles(Run(m, ticks).notices) == 1 ==> Run(m, ticks).m.usbResetPerformed
    decreases |ticks|
  {
    if ticks != [] {
      var t := ticks[0];
      var first := Iterate(m, t);
      var rest := Run(first.m, ticks[1..]);
      assert Run(m, ticks).notices == first.notices + rest.notices;
      CountAppend(first.notices, rest.notices);
      IterateKeepsValid(m, t);
      assert forall d :: Connected(d) !in first.notices && Connected(d) !in rest.notices;
      AtMostOnePowerCycle(first.m, ticks[1..]);
      if m.usbResetPerformed {
        NoSecondPowerCycle(m, t);
        CountZero(first.notices);
      } else {
        IterateCyclesAtMostOnce(m, t);
        if CountPowerCycles(first.notices) == 1 {
          assert first.m.usbResetPerformed;
        }
      }
    }
  }

  /** A single turn succeeds at most one power cycle, and if it does the flag
      is set afterwards. */
  lemma IterateCyclesAtMostOnce(m: Monitor, t: Tick)
    ensures CountPowerCycles(Iterate(m, t).notices) <= 1
    ensures CountPowerCycles(Iterate(m, t).notices) == 1 ==> Iterate(m, t).m.usbResetPerformed
  {
    var u := CheckUsbEvents(m, t.usb, t.usbPorts, t.usbOpenOk);
    NoCycles(u.notices);
    if u.m.inport.None? {
      var r := Reconnect(u.m, t);
      ReconnectCyclesAtMostOnce(u.m, t);
      CountAppend(u.notices, r.notices);
      if r.ok {
        var s := Serve(r.m, t);
        ServeNoPowerCycle(r.m, t);
        NoCycles(s.notices);
        CountAppend(u.notices + r.notices, s.notices);
      }
    } else {
      var s := Serve(u.m, t);
      ServeNoPowerCycle(u.m, t);
      NoCycles(s.notices);
      CountAppend(u.notices, s.notices);
    }
  }

  /** A reconnect attempt succeeds at most one power cycle, none when the
      port opened, and sets the flag when it does. */
  lemma ReconnectCyclesAtMostOnce(m: Monitor, t: Tick)
    ensures var r := Reconnect(m, t);
      && CountPowerCycles(r.notices) <= 1
      && (r.ok ==> CountPowerCycles(r.notices) == 0)
      && (CountPowerCycles(r.notices) == 1 ==> r.m.usbResetPerformed)
  {
    var c := Connect(m, t.ports, t.openOk);
    NoCycles(c.notices);
    CountAppend(c.notices, [PowerCycle(true)]);
    CountAppend(c.notices, [PowerCycle(false)]);
  }

  lemma NoCycles(ns: seq<Notice>)
    requires forall n :: n in ns ==> !n.PowerCycle?
    ensures CountPowerCycles(ns) == 0
  {
    CountZero(ns);
  }
}
