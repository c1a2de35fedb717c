/** The MIDI messages the tracker sees, as `mido` delivers them. */
module Midi {

  /** A `mido.Message`. Only the three types the tracker reacts to carry fields;
      every other type (`pitchwheel`, `sysex`, clock, ...) is `Other`. */
  datatype Message =
    | NoteOn(note: int, velocity: int, channel: int)
    | NoteOff(note: int, velocity: int, channel: int)
    | ControlChange(channel: int, control: int, value: int)
    | Other(kind: string)
}
