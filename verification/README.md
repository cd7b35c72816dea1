# MIDI-to-floppy serial bridge, modelled in Dafny

The program listens on a MIDI input port. For every incoming message it
writes a short command to a serial device that drives a floppy-drive
oscillator. A Note On sends three bytes: the channel, then the high and low
bytes of the note's period divided by 80. A Note Off sends the channel
followed by two zero bytes. Every other message sends nothing. The period
comes from a fixed 108-entry table `micro_periods`, which gives a period in
microseconds for each MIDI note. Notes 24 to 71 (C1 to B4) are populated,
and every other entry is 0. Status bytes follow the Channel Voice Messages of
the MIDI 1.0 Detailed Specification: Note On is 9nH and Note Off is 8nH,
where n is the channel.

The model has three modules:

- `Bytes` (`bytes.dfy`) holds the byte arithmetic. It defines Python's `&`
  and `>>` on non-negative integers bit by bit. It then proves what they come
  to: `x & (2**k - 1)` is `x % 2**k`, `x >> k` is `x / 2**k`, and `x & 0xf0`
  on a byte clears its low nibble. On top of these it splits a status byte
  into command (`& 0xf0`) and channel (`& 0x0f`). It also splits a period
  into its high byte (`>> 8`) and low byte (`& 0xff`).
- `Periods` (`periods.dfy`) holds the table and the `/ (40 * 2)` scaling. The
  table is written row by row, twelve notes per row, as the program lays it
  out. `/` is Python 2 integer division.
- `Bridge` (`bridge.dfy`) holds the callback `cb` as two functions:
  - `Translate` is total. For any message it returns the bytes written and
    whether the callback raised. It keeps the bytes written before an
    exception: a Note On writes its channel byte before it reads the note or
    indexes the table.
  - `Encode` is the exception-free view. It is defined on the deliverable
    messages: those that have a status byte, plus, for a Note On, a note
    below 108.

  `Frame`, `Serialize` and `Deserialize` form a decoder defined here as the
  inverse of the `[channel, hi, lo]` layout the callback writes. They are the
  partner for the encoder's round trip. They make no claim about the device
  that receives the bytes.

Messages are sequences of bytes (0..255), as the MIDI input library
delivers them. So a note is never negative, and Python's negative indexing
never comes into play.

## Model

| member | source | states |
|---|---|---|
| `Bytes.Channel` | midi.py:34 | The channel is the low nibble of the status byte: it is below 16 and equals the status mod 16. |
| `Bytes.Command` | midi.py:35 | The command is a multiple of 16 below 256, and command plus channel gives back the status byte. |
| `Bytes.MaskLowBits` | midi.py:34 | Masking a non-negative integer with `k` one-bits leaves its remainder modulo `2**k`. |
| `Bytes.MaskHighNibble` | midi.py:35 | `x & 0xf0` on a byte is `x` with its low nibble cleared, `16 * (x / 16)`. |
| `Bytes.ShiftDivides` | midi.py:41 | `x >> k` on a non-negative integer is floor division by `2**k`. |
| `Bytes.HighByte` | midi.py:41 | `speriod >> 8` is `speriod / 256`. |
| `Bytes.LowByte` | midi.py:42 | `speriod & 0xff` is `speriod % 256`, a byte. |
| `Bytes.CommandChannelJoin` | midi.py:34-35 | The split is onto: any command nibble plus any channel below 16 splits back into that command and channel. |
| `Bytes.StatusDeterminedBySplit` | midi.py:34-35 | The split is one-to-one: two status bytes with the same command and channel are equal. |
| `Bytes.SplitJoin` | midi.py:41-42 | The high byte (`>> 8`) and low byte (`& 0xff`) of a value join back to the value. |
| `Bytes.SplitUnique` | midi.py:41-42 | A (high, low) pair with a low part below 256 joins to a value exactly when it is that value's `>> 8` and `& 0xff`. |
| `Bytes.JoinSplit` | midi.py:41-42 | Joining a high and a low byte and splitting the result gives back both bytes. |
| `Periods.TableSize` | midi.py:12-21 | The table has exactly 108 entries, one per note 0..107. |
| `Periods.SilentIffZero` | midi.py:12-21 | An entry is 0 exactly for notes 0-23 and 72-107. Every populated entry is at least 2025. |
| `Periods.TableBound` | midi.py:12-21 | No entry exceeds the C1 period, 30578. |
| `Periods.ScaledPeriodBound` | midi.py:40-41 | `micro_periods[note] / 80` is at most 382, so its high byte is at most 1. It is zero exactly for the unpopulated notes. |
| `Periods.SemitoneSpacing` | midi.py:15-18 | Each pair of neighbouring populated entries is one equal-tempered semitone apart: their ratio is between 1.059 and 1.060. |
| `Periods.OctaveHalving` | midi.py:15-18 | An entry is twice the entry an octave higher, to within 1 µs. The C#1/C#2 pair is the exception, at 11 µs. |
| `Periods.ScaledStrictlyDecreasing` | midi.py:15-18 | Over notes 24-71, the period divided by 80 strictly decreases as the note rises, so no two playable notes send the same value. |
| `Bridge.Translate` | midi.py:30-46 | The callback writes at most three bytes, and the first byte written is always the channel. It raises `EmptyMessage`, with nothing written, exactly when the message is empty. The other faults are stated by `Bridge.RaisesIffUndeliverable`. |
| `Bridge.NoChrFault` | midi.py:38-42 | No `chr` call ever gets a value outside 0..255, whatever the message. |
| `Bridge.RaisesIffUndeliverable` | midi.py:32-40 | The callback raises exactly when the message is empty, or is a Note On without a note or with a note of 108 or more. A Note On fault names its cause, and by then only the channel byte has gone out. |
| `Bridge.Encode` | midi.py:30-46 | On a deliverable message the callback returns normally and writes either nothing or exactly three bytes. |
| `Bridge.NoteOnFrame` | midi.py:37-42 | A Note On sends exactly `[channel, speriod >> 8, speriod & 0xff]`, where `speriod = micro_periods[note] / 80`. The two period bytes join back to `speriod`, and the high byte is at most 1. |
| `Bridge.NoteOffFrame` | midi.py:44-46 | A Note Off sends `[channel, 0, 0]`, whatever its data bytes. |
| `Bridge.SendsIffNote` | midi.py:37-46 | Only a Note On or a Note Off sends anything. Whatever is sent begins with the channel. |
| `Bridge.OnlyStatusAndNoteMatter` | midi.py:33-46 | Messages with the same status byte send the same bytes, and for a Note On they must also share the note. Velocity and any later data bytes are ignored. |
| `Bridge.SilentNoteOnIsNoteOff` | midi.py:37-46 | A Note On sends the same bytes as a Note Off on its channel exactly when the note's table entry is 0 (notes 0-23 and 72-107). |
| `Bridge.PlayableNotesDistinct` | midi.py:37-42 | Two Note Ons for notes 24-71 send the same bytes exactly when they have the same channel and the same note. |
| `Bridge.FrameRoundTrip` | midi.py:41-42 | A three-byte command splits and rejoins without loss, in both directions. |
| `Bridge.EncodeDecodes` | midi.py:37-46 | Decoding what was sent gives the channel and `micro_periods[note] / 80` for a Note On, and the channel and 0 for a Note Off. |

## Left out

- Opening the MIDI port with `open_midiport`, and the exit on EOF or Ctrl-C (midi.py:24-28). This is a foreign library and interactive I/O.
- Registering the callback with `set_callback`, the `sleep` main loop, and the `KeyboardInterrupt` / `close_port` cleanup (midi.py:50-53, 65-73). This is event plumbing and process lifecycle.
- Opening the serial port at 9600 baud with a timeout, and reading its name from `argv` (midi.py:56-62). This is device I/O.
- The actual `serial.write` calls. The model returns the written bytes as a sequence. The Note Off's `chr(channel)` and `"\x00\x00"` arrive as one three-byte sequence.
- The timestamp `dt` that comes with each message. The callback never uses it.
- Python 3 semantics. The program is Python 2: `chr` yields a one-byte string, and `/` on integers is floor division. Under Python 3, `/` would give a float, and `speriod >> 8` would raise a TypeError on it before `chr` is reached.
- Bridge.Translate: it models only the exceptions the callback's own code can raise on a byte message. It does not cover failures inside `serial.write`.

## Behaviour worth knowing

- A Note On with velocity 0 still sends the note's period. The MIDI 1.0
  convention treats it as a Note Off, and many keyboards send it on key
  release. `Bridge.OnlyStatusAndNoteMatter` states that velocity never
  matters.
- The C#2 entry (14436) is 5.5 µs above half the C#1 entry (28861 / 2 = 14430.5). After the division
  by 80 it sends the same value as the equal-tempered 14431 would, so the
  bytes sent are unaffected.
