/** `usb_reset.py`: find the Kawai piano in the `lsusb` listing and reset it
    through its device node. The `lsusb` output (`None` when running it
    raised) and whether the reset succeeded are inputs. */
module UsbReset {
  import opened Base
  import opened Text

  /** The vendor:product pair of the piano. */
  const KawaiId: string := "0f54:0104"

  /** `lsusb` lines that name the piano. */
  predicate IsKawaiLine(line: string) {
    Contains(line, "Kawai") || Contains(line, KawaiId)
  }

  /** The bus and device numbers of an `lsusb` line: whitespace fields 1 and 3,
      the latter with its trailing colons stripped; `None` for a line of fewer
      than four fields (the `IndexError` the handler turns into `(None, None)`). */
  function ParseLine(line: string): (r: Option<(string, string)>)
    ensures r.Some? <==> |Fields(line)| >= 4
    ensures r.Some? ==> r.value.0 == Fields(line)[1] && r.value.1 == RStripChar(Fields(line)[3], ':')
  {
    var parts := Fields(line);
    if |parts| < 4 then None else Some((parts[1], RStripChar(parts[3], ':')))
  }

  /** `find_kawai_usb`: the bus and device of the first line naming the piano;
      `None` when `lsusb` failed, no line names the piano, or that first line
      is too short. */
  function FindKawaiUsb(lsusb: Option<string>): (r: Option<(string, string)>)
    ensures r.Some? ==>
      lsusb.Some? &&
      (var lines := Lines(lsusb.value);
       exists i :: 0 <= i < |lines| && IsKawaiLine(lines[i])
                   && (forall j :: 0 <= j < i ==> !IsKawaiLine(lines[j]))
                   && ParseLine(lines[i]) == r)
    ensures r.None? ==>
      lsusb.None? ||
      (var lines := Lines(lsusb.value);
       forall i :: 0 <= i < |lines| && IsKawaiLine(lines[i]) && (forall j :: 0 <= j < i ==> !IsKawaiLine(lines[j])) ==>
         ParseLine(lines[i]).None?)
  {
    if lsusb.None? then None
    else
      match Find(Lines(lsusb.value), IsKawaiLine)
      case None => None
      case Some(line) => ParseLine(line)
  }

  /** An `lsusb` line as the tool prints it:
      `Bus 001 Device 020: ID 0f54:0104 Kawai ...`. */
  function LsusbLine(bus: string, device: string, id: string, description: seq<string>): string {
    Join(["Bus", bus, "Device", device + ":", "ID", id] + description, ' ')
  }

  /** A token `lsusb` prints: non-empty, no whitespace, no line break. */
  predicate IsToken(w: string) {
    w != [] && forall i :: 0 <= i < |w| ==> !IsSpace(w[i]) && !IsLineBreak(w[i])
  }

  /** Parsing undoes printing: from the listing line of the piano, the bus and
      device numbers are read back exactly, whatever the description says. */
  lemma FindKawaiUsbReadsLine(bus: string, device: string, description: seq<string>)
    requires IsToken(bus) && IsToken(device) && device[|device| - 1] != ':'
    requires forall k :: 0 <= k < |description| ==> IsToken(description[k])
    ensures FindKawaiUsb(Some(LsusbLine(bus, device, KawaiId, description))) == Some((bus, device))
  {
    var words := ["Bus", bus, "Device", device + ":", "ID", KawaiId] + description;
    var line := Join(words, ' ');
    assert forall k :: 0 <= k < |words| ==> IsToken(words[k]);
    FieldsJoin(words);
    NoBreakInJoin(words);
    LinesSingle(line);
    KawaiIdInLine(words);
    assert RStripChar(device + ":", ':') == device;
  }

  lemma {:induction false} NoBreakInJoin(words: seq<string>)
    requires |words| >= 1 && forall k :: 0 <= k < |words| ==> IsToken(words[k])
    ensures Join(words, ' ') != []
    ensures forall i :: 0 <= i < |Join(words, ' ')| ==> !IsLineBreak(Join(words, ' ')[i])
    decreases |words|
  {
    if |words| > 1 {
      NoBreakInJoin(words[1..]);
      var rest := Join(words[1..], ' ');
      assert Join(words, ' ') == words[0] + [' '] + rest;
      forall i | 0 <= i < |Join(words, ' ')| ensures !IsLineBreak(Join(words, ' ')[i]) {
        if i > |words[0]| {
          assert Join(words, ' ')[i] == rest[i - |words[0]| - 1];
        }
      }
    }
  }

  lemma KawaiIdInLine(words: seq<string>)
    requires |words| >= 6 && words[5] == KawaiId
    ensures Contains(Join(words, ' '), KawaiId)
  {
    JoinContainsWord(words, 5);
  }

  /** Every word occurs in the joined text. */
  lemma JoinContainsWord(words: seq<string>, k: nat)
    requires k < |words|
    ensures Contains(Join(words, ' '), words[k])
  {
    var s := Join(words, ' ');
    var t := Join(words[k..], ' ');
    var w := words[k];
    JoinSuffix(words, k);
    JoinStartsWithFirst(words[k..]);
    var off := |s| - |t|;
    assert s[off..off + |w|] == t[..|w|];
    assert OccursAt(s, w, off);
  }

  /** A joined text starts with its first word. */
  lemma JoinStartsWithFirst(words: seq<string>)
    requires |words| >= 1
    ensures |words[0]| <= |Join(words, ' ')| && Join(words, ' ')[..|words[0]|] == words[0]
  {
    if |words| > 1 {
      var rest := Join(words[1..], ' ');
      assert Join(words, ' ') == words[0] + ([' '] + rest);
    }
  }

  /** Joining keeps the join of a suffix of the words at its end. */
  lemma {:induction false} JoinSuffix(words: seq<string>, k: nat)
    requires k < |words|
    ensures |Join(words[k..], ' ')| <= |Join(words, ' ')|
    ensures Join(words, ' ')[|Join(words, ' ')| - |Join(words[k..], ' ')|..] == Join(words[k..], ' ')
    decreases k
  {
    if k > 0 {
      assert words[1..][k - 1..] == words[k..];
      JoinSuffix(words[1..], k - 1);
      var s := Join(words, ' ');
      var rest := Join(words[1..], ' ');
      assert s == words[0] + [' '] + rest;
      assert s[|s| - |rest|..] == rest;
    }
  }

  /** `reset_usb_device`: the device node of a bus and device number. */
  function ResetPath(bus: string, device: string): string {
    "/dev/bus/usb/" + bus + "/" + device
  }

  /** The device node names the bus and the device as its last two path
      components, so distinct devices get distinct nodes. */
  lemma ResetPathComponents(bus: string, device: string)
    requires forall i :: 0 <= i < |bus| ==> bus[i] != '/'
    requires forall i :: 0 <= i < |device| ==> device[i] != '/'
    ensures SplitOn(ResetPath(bus, device), '/') == ["", "dev", "bus", "usb", bus, device]
  {
    var parts := ["", "dev", "bus", "usb", bus, device];
    assert Join(parts[5..], '/') == device;
    assert Join(parts[4..], '/') == bus + "/" + device;
    assert Join(parts[3..], '/') == "usb/" + bus + "/" + device;
    assert Join(parts[2..], '/') == "bus/usb/" + bus + "/" + device;
    assert Join(parts[1..], '/') == "dev/bus/usb/" + bus + "/" + device;
    assert Join(parts, '/') == ResetPath(bus, device);
    SplitOnJoin(parts, '/');
  }

  /** What `main` did: its exit code and the device node it reset, if any. */
  datatype Outcome = Outcome(code: int, resetAt: Option<string>)

  /** Whether a lookup found both numbers (the `if not bus or not device` test). */
  predicate Found(r: Option<(string, string)>) {
    r.Some? && r.value.0 != "" && r.value.1 != ""
  }

  /** `main`: exit 1 without touching the device when the piano is not found;
      otherwise reset it, and exit 0 only if the reset worked and the piano is
      listed again afterwards. */
  function Run(before: Option<string>, resetOk: bool, after: Option<string>): (o: Outcome)
    ensures o.code == 0 || o.code == 1
    ensures o.resetAt.Some? <==> Found(FindKawaiUsb(before))
    ensures o.resetAt.Some? ==>
      var r := FindKawaiUsb(before).value; o.resetAt.value == ResetPath(r.0, r.1)
    ensures o.code == 0 <==> Found(FindKawaiUsb(before)) && resetOk && Found(FindKawaiUsb(after))
  {
    var found := FindKawaiUsb(before);
    if !Found(found) then Outcome(1, None)
    else
      var path := ResetPath(found.value.0, found.value.1);
      if !resetOk then Outcome(1, Some(path))
      else if Found(FindKawaiUsb(after)) then Outcome(0, Some(path))
      else Outcome(1, Some(path))
  }
}
