/** `PianoUserSelector`: who is practising, chosen by pressing a key on the
    piano. `user_selector.py` and `pianolog/user_selector.py` hold the same code;
    both are modelled here. Port listing, opening, the prompt melody, the
    confirmation chord and the clock are inputs: the port lists, whether the
    ports opened and the prompt was sent, whether the confirmation was sent,
    and the sequence of polls the loop makes, each with its time and either its
    pending messages or the failure of reading them. */
module UserSelector {
  import opened Base
  import opened Text
  import opened Decimal
  import opened Midi

  /** Name fragment of the piano's MIDI ports. */
  const PianoPort: string := "USB func for MIDI"

  /** The user recorded when nobody was selected. */
  const Unknown: string := "unknown"

  const PitchNames: seq<string> := ["C", "C#", "D", "D#", "E", "F", "F#", "G", "G#", "A", "A#", "B"]

  // ---------------------------------------------------------------------------
  // Note names

  /** `_note_name`: pitch class followed by octave, with middle C (60) in
      octave 4. Python's `//` and `%` floor; for the divisor 12 Dafny's
      Euclidean `/` and `%` give the same results, also for negative notes. */
  function NoteName(n: int): string {
    PitchNames[n % 12] + IntToString(n / 12 - 1)
  }

  /** Position of a pitch-class name in `PitchNames`. */
  function PitchIndex(name: string): (r: Option<nat>)
    ensures r.Some? ==> r.value < 12 && PitchNames[r.value] == name
  {
    if name == "C" then Some(0) else if name == "C#" then Some(1)
    else if name == "D" then Some(2) else if name == "D#" then Some(3)
    else if name == "E" then Some(4) else if name == "F" then Some(5)
    else if name == "F#" then Some(6) else if name == "G" then Some(7)
    else if name == "G#" then Some(8) else if name == "A" then Some(9)
    else if name == "A#" then Some(10) else if name == "B" then Some(11)
    else None
  }

  /** Reads a note name back: a pitch class (with `#` when sharp) and an octave. */
  function ParseNoteName(s: string): Option<int> {
    if |s| == 0 then None
    else
      var k := if |s| >= 2 && s[1] == '#' then 2 else 1;
      match (PitchIndex(s[..k]), ParseInt(s[k..]))
      case (Some(pc), Some(octave)) => Some((octave + 1) * 12 + pc)
      case _ => None
  }

  /** Distinct notes get distinct names: the name is read back to the note. */
  lemma NoteNameRoundTrip(n: int)
    ensures ParseNoteName(NoteName(n)) == Some(n)
  {
    var pc, octave := n % 12, n / 12 - 1;
    var digits := IntToString(octave);
    IntToStringRoundTrip(octave);
    assert digits[0] == '-' || IsDigit(digits[0]);
    ParseJoined(pc, digits);
    assert (octave + 1) * 12 + pc == n;
  }

  /** A pitch-class name followed by a parsable octave that does not start
      with '#' reads back to its pitch class and octave. */
  lemma ParseJoined(pc: nat, digits: string)
    requires pc < 12 && |digits| >= 1 && digits[0] != '#' && ParseInt(digits).Some?
    ensures ParseNoteName(PitchNames[pc] + digits) == Some((ParseInt(digits).value + 1) * 12 + pc)
  {
    var name := PitchNames[pc];
    var s := name + digits;
    var k := if |s| >= 2 && s[1] == '#' then 2 else 1;
    assert k == |name| by {
      if |name| == 1 {
        assert s[1] == digits[0];
      }
    }
    assert s[..k] == name && s[k..] == digits;
    assert PitchIndex(name) == Some(pc);
  }

  /** Middle C is "C4"; the lowest MIDI note 0 is "C-1". */
  lemma NoteNameExamples()
    ensures NoteName(60) == "C4"
    ensures NoteName(61) == "C#4"
    ensures NoteName(0) == "C-1"
    ensures NoteName(127) == "G9"
  {
  }

  // ---------------------------------------------------------------------------
  // Ports

  predicate IsPianoPort(port: string) {
    Contains(port, PianoPort)
  }

  /** `r` is the first port of `ports` whose name contains `PianoPort`, or
      `None` exactly when no port does. */
  ghost predicate FirstPianoPort(ports: seq<string>, r: Option<string>) {
    && (r.None? <==> forall i :: 0 <= i < |ports| ==> !IsPianoPort(ports[i]))
    && (r.Some? ==> exists i :: 0 <= i < |ports| && ports[i] == r.value && IsPianoPort(ports[i])
                             && forall j :: 0 <= j < i ==> !IsPianoPort(ports[j]))
  }

  /** `_find_piano_ports`: the first piano port of each list, input first. */
  function FindPianoPorts(inputs: seq<string>, outputs: seq<string>): (r: (Option<string>, Option<string>))
    ensures FirstPianoPort(inputs, r.0)
    ensures FirstPianoPort(outputs, r.1)
  {
    (Find(inputs, IsPianoPort), Find(outputs, IsPianoPort))
  }

  // ---------------------------------------------------------------------------
  // Selection

  /** One pass of the waiting loop: the time it was checked at and the
      messages `iter_pending()` returned, or that reading them raised. */
  datatype Poll = Poll(at: int, pending: seq<Message>) | ReadError(at: int)

  /** The messages one pass saw: none when reading raised. */
  function Received(p: Poll): seq<Message> {
    if p.Poll? then p.pending else []
  }

  /** A message that picks a user: a key press (velocity above 0) on a mapped note. */
  predicate Selects(users: map<int, string>, m: Message) {
    m.NoteOn? && m.velocity > 0 && m.note in users
  }

  /** All pending messages of a sequence of polls, in arrival order. */
  function Pending(polls: seq<Poll>): seq<Message> {
    if polls == [] then [] else Received(polls[0]) + Pending(polls[1..])
  }

  /** How many polls read messages before the loop stops: it stops at the
      first poll whose time is `timeout` or more past `start`, and at the first
      one whose read raised. */
  function LiveCount(polls: seq<Poll>, start: int, timeout: int): (n: nat)
    ensures n <= |polls|
    ensures forall i :: 0 <= i < n ==> polls[i].at - start < timeout && polls[i].Poll?
    ensures n < |polls| ==> polls[n].at - start >= timeout || polls[n].ReadError?
  {
    if polls == [] || polls[0].at - start >= timeout || polls[0].ReadError? then 0
    else 1 + LiveCount(polls[1..], start, timeout)
  }

  /** The user picked by the first selecting message, if any. */
  function FirstSelection(users: map<int, string>, msgs: seq<Message>): Option<string> {
    if msgs == [] then None
    else if Selects(users, msgs[0]) then Some(users[msgs[0].note])
    else FirstSelection(users, msgs[1..])
  }

  /** What `select_user` returns: "unknown" when a piano port is missing, and
      "unknown" whenever the `try` block raises: opening the ports or sending
      the prompt melody (`setupOk` false), reading pending messages, or sending
      the confirmation chord (`confirmOk` false). Otherwise the user of the
      first selecting message that arrives before the timeout, and "unknown" if
      there is none. */
  function Expected(users: map<int, string>, timeout: int, inputs: seq<string>, outputs: seq<string>,
                    setupOk: bool, start: int, polls: seq<Poll>, confirmOk: bool): string
  {
    var ports := FindPianoPorts(inputs, outputs);
    if ports.0.None? || ports.1.None? || !setupOk then Unknown
    else
      match FirstSelection(users, Pending(polls[..LiveCount(polls, start, timeout)]))
      case Some(u) => if confirmOk then u else Unknown
      case None => Unknown
  }

  lemma PendingAppend(a: seq<Poll>, b: seq<Poll>)
    ensures Pending(a + b) == Pending(a) + Pending(b)
  {
    if a == [] {
      assert a + b == b;
    } else {
      assert (a + b)[1..] == a[1..] + b;
      PendingAppend(a[1..], b);
    }
  }

  lemma FirstSelectionAppend(users: map<int, string>, a: seq<Message>, b: seq<Message>)
    ensures FirstSelection(users, a + b)
         == if FirstSelection(users, a).Some? then FirstSelection(users, a) else FirstSelection(users, b)
  {
    if a == [] {
      assert a + b == b;
    } else {
      assert (a + b)[0] == a[0];
      assert (a + b)[1..] == a[1..] + b;
      FirstSelectionAppend(users, a[1..], b);
    }
  }

  /** Every user `FirstSelection` returns is a value of the mapping. */
  lemma FirstSelectionIsUser(users: map<int, string>, msgs: seq<Message>)
    ensures FirstSelection(users, msgs).Some? ==> FirstSelection(users, msgs).value in users.Values
  {
    if msgs != [] && !Selects(users, msgs[0]) {
      FirstSelectionIsUser(users, msgs[1..]);
    }
  }

  /** The result is always "unknown" or one of the configured users. */
  lemma ExpectedIsUserOrUnknown(users: map<int, string>, timeout: int, inputs: seq<string>,
                                outputs: seq<string>, setupOk: bool, start: int, polls: seq<Poll>,
                                confirmOk: bool)
    ensures var u := Expected(users, timeout, inputs, outputs, setupOk, start, polls, confirmOk);
            u == Unknown || u in users.Values
  {
    FirstSelectionIsUser(users, Pending(polls[..LiveCount(polls, start, timeout)]));
  }

  /** `select_user`, as the loop the source runs: poll until the timeout, scan
      each batch of pending messages, and return on the first selecting one
      once the confirmation is sent; any failure inside the `try` gives
      "unknown". */
  method SelectUser(users: map<int, string>, timeout: int, inputs: seq<string>, outputs: seq<string>,
                    setupOk: bool, start: int, polls: seq<Poll>, confirmOk: bool) returns (user: string)
    ensures user == Expected(users, timeout, inputs, outputs, setupOk, start, polls, confirmOk)
    ensures user == Unknown || user in users.Values
  {
    ExpectedIsUserOrUnknown(users, timeout, inputs, outputs, setupOk, start, polls, confirmOk);
    var ports := FindPianoPorts(inputs, outputs);
    if ports.0.None? || ports.1.None? || !setupOk {
      return Unknown;
    }
    ghost var live := LiveCount(polls, start, timeout);
    var i := 0;
    while i < |polls| && polls[i].at - start < timeout
      invariant i <= live
      invariant FirstSelection(users, Pending(polls[..i])) == None
    {
      if polls[i].ReadError? {
        return Unknown;
      }
      var msgs := polls[i].pending;
      var j := 0;
      while j < |msgs|
        invariant j <= |msgs|
        invariant FirstSelection(users, msgs[..j]) == None
      {
        var m := msgs[j];
        if m.NoteOn? && m.velocity > 0 && m.note in users {
          SelectionFound(users, polls, i, j, live);
          if !confirmOk {
            return Unknown;
          }
          return users[m.note];
        }
        MessageStep(users, msgs, j);
        j := j + 1;
      }
      assert msgs[..j] == msgs;
      PollStep(users, polls, i);
      i := i + 1;
    }
    assert i == live;
    return Unknown;
  }

  /** The inner loop steps over a message that selects nobody. */
  lemma MessageStep(users: map<int, string>, msgs: seq<Message>, j: nat)
    requires j < |msgs| && FirstSelection(users, msgs[..j]) == None && !Selects(users, msgs[j])
    ensures FirstSelection(users, msgs[..j + 1]) == None
  {
    FirstSelectionAppend(users, msgs[..j], [msgs[j]]);
    assert msgs[..j + 1] == msgs[..j] + [msgs[j]];
  }

  /** The outer loop steps over a poll none of whose messages selects anyone. */
  lemma PollStep(users: map<int, string>, polls: seq<Poll>, i: nat)
    requires i < |polls| && FirstSelection(users, Pending(polls[..i])) == None
    requires FirstSelection(users, Received(polls[i])) == None
    ensures FirstSelection(users, Pending(polls[..i + 1])) == None
  {
    var msgs := Received(polls[i]);
    assert polls[..i + 1] == polls[..i] + [polls[i]];
    PendingAppend(polls[..i], [polls[i]]);
    assert [polls[i]][1..] == [];
    assert Pending([polls[i]]) == msgs + Pending([]);
    assert msgs + [] == msgs;
    FirstSelectionAppend(users, Pending(polls[..i]), msgs);
  }

  /** A selecting message found in poll `i` at position `j`, after nothing
      selected earlier, decides the result. */
  lemma SelectionFound(users: map<int, string>, polls: seq<Poll>, i: nat, j: nat, live: nat)
    requires i < live <= |polls| && j < |Received(polls[i])|
    requires FirstSelection(users, Pending(polls[..i])) == None
    requires FirstSelection(users, Received(polls[i])[..j]) == None
    requires Selects(users, Received(polls[i])[j])
    ensures FirstSelection(users, Pending(polls[..live])) == Some(users[Received(polls[i])[j].note])
  {
    var msgs := Received(polls[i]);
    var before, after := polls[..i], polls[i + 1..live];
    var rest := Pending(after);
    assert Pending(polls[..live]) == Pending(before) + (msgs + rest) by {
      SplitAt(polls, i, live);
      PendingAppend(before, [polls[i]] + after);
      PendingCons(polls[i], after);
    }
    FirstInBatch(users, msgs, j);
    FirstSelectionAppend(users, msgs, rest);
    FirstSelectionAppend(users, Pending(before), msgs + rest);
  }

  lemma SplitAt(polls: seq<Poll>, i: nat, live: nat)
    requires i < live <= |polls|
    ensures polls[..live] == polls[..i] + ([polls[i]] + polls[i + 1..live])
  {
  }

  lemma PendingCons(p: Poll, rest: seq<Poll>)
    ensures Pending([p] + rest) == Received(p) + Pending(rest)
  {
    assert ([p] + rest)[1..] == rest;
  }

  /** The first selecting message of a batch decides the batch. */
  lemma FirstInBatch(users: map<int, string>, msgs: seq<Message>, j: nat)
    requires j < |msgs| && FirstSelection(users, msgs[..j]) == None && Selects(users, msgs[j])
    ensures FirstSelection(users, msgs) == Some(users[msgs[j].note])
  {
    assert msgs == msgs[..j] + ([msgs[j]] + msgs[j + 1..]);
    FirstSelectionAppend(users, msgs[..j], [msgs[j]] + msgs[j + 1..]);
  }
}
