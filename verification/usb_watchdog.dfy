/** `USBWatchdog` (`usb_watchdog.py`, and its copy `tools/usb_watchdog.py`):
    watches the piano's USB connection and asks for a manual replug when the
    device stays visible to `lsusb` but unusable as a MIDI port.

    The outputs of `lsusb` and of the MIDI port listing (`None` when running the
    command raised), of `find` and `ls` over `/sys`, and whether an unbind/bind
    pair succeeds are inputs. */
module UsbWatchdog {
  import opened Base
  import opened Text

  const DefaultVendor: string := "0f54"
  const DefaultProduct: string := "0104"

  /** The MIDI port name the working piano shows. */
  const MidiPortName: string := "USB func for MIDI"

  /** Consecutive stale checks after which the watchdog asks for a replug. */
  const StaleLimit: nat := 3

  /** `device_id`: "vendor:product". */
  function DeviceId(vendor: string, product: string): string {
    vendor + ":" + product
  }

  /** The device id determines vendor and product: splitting at the colon gives
      them back. */
  lemma DeviceIdSplits(vendor: string, product: string)
    requires forall i :: 0 <= i < |vendor| ==> vendor[i] != ':'
    requires forall i :: 0 <= i < |product| ==> product[i] != ':'
    ensures SplitOn(DeviceId(vendor, product), ':') == [vendor, product]
  {
    assert Join([product], ':') == product;
    assert Join([vendor, product], ':') == DeviceId(vendor, product);
    SplitOnJoin([vendor, product], ':');
  }

  // ---------------------------------------------------------------------------
  // The watchdog loop

  /** `is_device_in_usb_list`: the id occurs in the `lsusb` output. */
  predicate InUsbList(deviceId: string, lsusb: Option<string>) {
    lsusb.Some? && Contains(lsusb.value, deviceId)
  }

  /** `is_device_working`: the MIDI port occurs in the listing the helper
      process prints. */
  predicate IsWorking(listing: Option<string>) {
    listing.Some? && Contains(listing.value, MidiPortName)
  }

  /** What one check of `run` saw. */
  datatype Health =
    | Healthy     // listed and working
    | Stale       // listed but not working
    | Gone        // neither
    | Unlisted    // working but not listed

  function Classify(inUsb: bool, working: bool): (h: Health)
    ensures h.Healthy? <==> inUsb && working
    ensures h.Stale? <==> inUsb && !working
    ensures h.Gone? <==> !inUsb && !working
    ensures h.Unlisted? <==> !inUsb && working
  {
    if inUsb && working then Healthy
    else if inUsb then Stale
    else if !working then Gone
    else Unlisted
  }

  /** The raw outputs one check reads. */
  datatype Observation = Observation(lsusb: Option<string>, midiPorts: Option<string>)

  function Observe(deviceId: string, o: Observation): Health {
    Classify(InUsbList(deviceId, o.lsusb), IsWorking(o.midiPorts))
  }

  /** The counter update of one check, and whether the replug request fired:
      a stale check counts up and at the limit asks for a replug and starts
      over; every other check clears the counter. */
  function Next(failures: nat, h: Health): (r: (nat, bool))
    ensures r.0 < StaleLimit
    ensures r.1 <==> h.Stale? && failures + 1 >= StaleLimit
    ensures !h.Stale? ==> r.0 == 0
    ensures h.Stale? && !r.1 ==> r.0 == failures + 1
  {
    if h.Stale? then
      if failures + 1 >= StaleLimit then (0, true) else (failures + 1, false)
    else (0, false)
  }

  /** How many checks at the end of `hs` were stale in a row. */
  function TrailingStale(hs: seq<Health>): nat {
    if hs == [] || !hs[|hs| - 1].Stale? then 0 else 1 + TrailingStale(hs[..|hs| - 1])
  }

  /** The health of each check. */
  function Healths(deviceId: string, obs: seq<Observation>): (hs: seq<Health>)
    ensures |hs| == |obs|
    ensures forall k :: 0 <= k < |obs| ==> hs[k] == Observe(deviceId, obs[k])
  {
    seq(|obs|, k requires 0 <= k < |obs| => Observe(deviceId, obs[k]))
  }

  /** The loop of `run` over a sequence of checks: the final counter and, for
      each check, whether it asked for a replug. The counter always equals the
      length of the current stale streak modulo 3, and a replug is requested
      exactly when a stale streak reaches a multiple of 3. */
  method Run(deviceId: string, obs: seq<Observation>) returns (failures: nat, replug: seq<bool>)
    ensures failures < StaleLimit
    ensures failures == TrailingStale(Healths(deviceId, obs)) % StaleLimit
    ensures |replug| == |obs|
    ensures forall k :: 0 <= k < |obs| ==>
              (replug[k] <==> var streak := TrailingStale(Healths(deviceId, obs)[..k + 1]);
                              streak > 0 && streak % StaleLimit == 0)
  {
    ghost var hs := Healths(deviceId, obs);
    failures := 0;
    replug := [];
    var i := 0;
    while i < |obs|
      invariant 0 <= i <= |obs|
      invariant failures == TrailingStale(hs[..i]) % StaleLimit
      invariant |replug| == i
      invariant forall k :: 0 <= k < i ==>
                  (replug[k] <==> var streak := TrailingStale(hs[..k + 1]);
                                  streak > 0 && streak % StaleLimit == 0)
    {
      var inUsb := InUsbList(deviceId, obs[i].lsusb);
      var working := IsWorking(obs[i].midiPorts);
      var h := Classify(inUsb, working);
      assert h == hs[i];
      var r := Next(failures, h);
      StreakStep(hs, i);
      failures := r.0;
      replug := replug + [r.1];
      i := i + 1;
    }
    assert hs[..i] == hs;
  }

  /** The streak after check `i` extends the streak before it exactly when
      check `i` is stale. */
  lemma StreakStep(hs: seq<Health>, i: nat)
    requires i < |hs|
    ensures TrailingStale(hs[..i + 1]) == if hs[i].Stale? then TrailingStale(hs[..i]) + 1 else 0
  {
    assert hs[..i + 1][..i] == hs[..i];
  }

  // ---------------------------------------------------------------------------
  // Bus reset

  /** A controller and one of its devices to unbind and rebind. */
  datatype Target = Target(controller: string, device: string)

  /** Lines of a command's output as `stdout.strip().split('\n')` gives them. */
  function Entries(out: string): seq<string> {
    SplitOn(Strip(out), '\n')
  }

  /** The driver paths `reset_usb_bus` considers: non-empty, naming an xHCI
      controller in any case. */
  predicate IsController(path: string) {
    path != "" && Contains(Lower(path), "xhci")
  }

  /** The directory entries it treats as PCI devices: they contain a colon and
      are not the `bind`/`unbind` control files. */
  predicate IsDeviceEntry(entry: string) {
    ':' in entry && entry != "bind" && entry != "unbind"
  }

  /** The targets among the entries of one controller, in listing order. */
  function Pairs(controller: string, entries: seq<string>): (r: seq<Target>)
    ensures forall k :: 0 <= k < |r| ==> r[k].controller == controller && IsDeviceEntry(r[k].device)
                                          && r[k].device in entries
  {
    if entries == [] then []
    else (if IsDeviceEntry(entries[0]) then [Target(controller, entries[0])] else [])
         + Pairs(controller, entries[1..])
  }

  /** Every target `reset_usb_bus` tries, in the order it tries them. */
  function Candidates(paths: seq<string>, listing: string -> string): (r: seq<Target>)
    ensures forall k :: 0 <= k < |r| ==> IsController(r[k].controller) && r[k].controller in paths
                                          && IsDeviceEntry(r[k].device)
  {
    if paths == [] then []
    else
      var here := if IsController(paths[0]) then Pairs(paths[0], Entries(listing(paths[0]))) else [];
      var rest := Candidates(paths[1..], listing);
      assert forall k :: 0 <= k < |rest| ==> rest[k].controller in paths;
      here + rest
  }

  /** `reset_usb_bus`: walk the controllers and their devices and stop at the
      first successful unbind/bind; returns the target reset, `None` (False)
      when none succeeded or the `find` command raised. */
  method ResetUsbBus(find: Option<string>, listing: string -> string, rebind: Target -> bool)
    returns (reset: Option<Target>)
    ensures find.None? ==> reset.None?
    ensures find.Some? ==> reset == Find(Candidates(Entries(find.value), listing), rebind)
    ensures reset.Some? ==> rebind(reset.value) && IsController(reset.value.controller)
                            && IsDeviceEntry(reset.value.device)
  {
    if find.None? {
      return None;
    }
    var paths := Entries(find.value);
    ghost var all := Candidates(paths, listing);
    var i := 0;
    while i < |paths|
      invariant 0 <= i <= |paths|
      invariant Find(all, rebind) == Find(Candidates(paths[i..], listing), rebind)
    {
      var path := paths[i];
      CandidatesStep(paths, i, listing, rebind);
      if path != "" && Contains(Lower(path), "xhci") {
        reset := TryController(path, Entries(listing(path)), rebind);
        if reset.Some? {
          FindFacts(all, rebind);
          return reset;
        }
      }
      i := i + 1;
    }
    assert paths[i..] == [];
    return None;
  }

  /** One step of the outer loop: a controller's devices are tried before the
      remaining paths, any other path is skipped. */
  lemma CandidatesStep(paths: seq<string>, i: nat, listing: string -> string, p: Target -> bool)
    requires i < |paths|
    ensures Find(Candidates(paths[i..], listing), p)
            == if IsController(paths[i]) && Find(Pairs(paths[i], Entries(listing(paths[i]))), p).Some?
               then Find(Pairs(paths[i], Entries(listing(paths[i]))), p)
               else Find(Candidates(paths[i + 1..], listing), p)
  {
    assert paths[i..][1..] == paths[i + 1..];
    var rest := Candidates(paths[i + 1..], listing);
    if IsController(paths[i]) {
      FindAppend(Pairs(paths[i], Entries(listing(paths[i]))), rest, p);
    } else {
      assert Candidates(paths[i..], listing) == [] + rest;
      assert [] + rest == rest;
    }
  }

  /** The inner loop of `reset_usb_bus`: the devices of one controller, in
      listing order, up to the first successful unbind/bind. */
  method TryController(path: string, devices: seq<string>, rebind: Target -> bool) returns (reset: Option<Target>)
    ensures reset == Find(Pairs(path, devices), rebind)
  {
    var j := 0;
    while j < |devices|
      invariant 0 <= j <= |devices|
      invariant Find(Pairs(path, devices), rebind) == Find(Pairs(path, devices[j..]), rebind)
    {
      var device := devices[j];
      PairsStep(path, devices, j, rebind);
      if ':' in device && device != "bind" && device != "unbind" {
        if rebind(Target(path, device)) {
          return Some(Target(path, device));
        }
      }
      j := j + 1;
    }
    assert devices[j..] == [];
    return None;
  }

  /** One step of the inner loop: an entry that is a device is tried first,
      any other entry is skipped. */
  lemma PairsStep(path: string, devices: seq<string>, j: nat, p: Target -> bool)
    requires j < |devices|
    ensures Find(Pairs(path, devices[j..]), p)
            == if IsDeviceEntry(devices[j]) && p(Target(path, devices[j])) then Some(Target(path, devices[j]))
               else Find(Pairs(path, devices[j + 1..]), p)
  {
    assert devices[j..][1..] == devices[j + 1..];
    var tail := Pairs(path, devices[j + 1..]);
    if IsDeviceEntry(devices[j]) {
      FindAppend([Target(path, devices[j])], tail, p);
    } else {
      assert Pairs(path, devices[j..]) == tail;
    }
  }

  lemma FindFacts(all: seq<Target>, p: Target -> bool)
    ensures Find(all, p).Some? ==> Find(all, p).value in all && p(Find(all, p).value)
  {
  }
}
