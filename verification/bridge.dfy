/** The MIDI input callback of the bridge, lifted out as a pure translation
    from one MIDI message to the bytes it writes to the serial line.

    A Note On (command 9nH) sends three bytes: the channel, then the high
    and low byte of the note's period divided by 80. A Note Off (command
    8nH) sends the channel and two zero bytes. Every other message sends
    nothing. The Channel Voice Message
    numbering is that of the MIDI 1.0 Detailed Specification. */
module Bridge {
  import opened Bytes
  import opened Periods

  /** Command nibbles (status byte with the channel masked off). */
  const NoteOn: nat := 0x90
  const NoteOff: nat := 0x80

  /** The exceptions the callback can raise. */
  datatype Fault =
    | EmptyMessage              // `msg[0]` of an empty message: IndexError
    | MissingNote               // `data[0]` of a Note On without data: IndexError
    | NoteOutOfTable(note: byte) // `micro_periods[note]` for a note >= 108: IndexError
    | ChrOutOfRange(value: int) // `chr(value)` outside 0..255: ValueError

  /** What one call of the callback leaves behind: the bytes it wrote to
      the serial line, in order, and whether it returned normally or raised
      (after writing the bytes written so far). */
  datatype Run =
    | Completed(written: seq<byte>)
    | Raised(written: seq<byte>, fault: Fault)

  /** `serial.write(chr(value))`, skipped once an exception is raised. */
  function WriteChr(run: Run, value: int): Run
  {
    if run.Raised? then run
    else if 0 <= value < 256 then Completed(run.written + [value])
    else Raised(run.written, ChrOutOfRange(value))
  }

  /** `serial.write(bytes)` of a byte string literal. */
  function WriteBytes(run: Run, bytes: seq<byte>): Run
  {
    if run.Raised? then run else Completed(run.written + bytes)
  }

  /** Raises `fault` unless an exception is already on its way. */
  function Raise(run: Run, fault: Fault): Run
  {
    if run.Raised? then run else Raised(run.written, fault)
  }

  /** The callback `cb` applied to MIDI message `msg` (status byte first,
      then the data bytes). The Note On and Note Off tests are two separate
      `if`s in the program; they never both hold, so they are an if/else
      here. */
  function Translate(msg: seq<byte>): (r: Run)
    ensures |r.written| <= 3
    ensures r.written != [] ==> |msg| > 0 && r.written[0] == msg[0] % 16
    ensures r == Raised([], EmptyMessage) <==> |msg| == 0
  {
    if |msg| == 0 then Raised([], EmptyMessage)
    else
      var status, data := msg[0], msg[1..];
      var channel, cmd := Channel(status), Command(status);
      if cmd == NoteOn then
        var sent := WriteChr(Completed([]), channel);
        if |data| == 0 then Raise(sent, MissingNote)
        else
          var note := data[0];
          if !InTable(note) then Raise(sent, NoteOutOfTable(note))
          else
            var speriod := ScaledPeriod(note);
            WriteChr(WriteChr(sent, HighByte(speriod)), LowByte(speriod))
      else if cmd == NoteOff then
        WriteBytes(WriteChr(Completed([]), channel), [0, 0])
      else
        Completed([])
  }

  /** The messages the callback handles without raising: a status byte,
      and for a Note On a note that indexes the table. */
  predicate Deliverable(msg: seq<byte>)
  {
    && |msg| > 0
    && (Command(msg[0]) == NoteOn ==> |msg| > 1 && InTable(msg[1]))
  }

  /** Every `chr` call receives a value in 0..255: the table's largest
      period keeps the high byte at most 1. */
  lemma NoChrFault(msg: seq<byte>)
    ensures !(Translate(msg).Raised? && Translate(msg).fault.ChrOutOfRange?)
  {
    if |msg| > 1 && Command(msg[0]) == NoteOn && InTable(msg[1]) {
      ScaledPeriodBound(msg[1]);
    }
  }

  /** The callback raises exactly on the messages that are not deliverable,
      names the cause, and by then has written the channel byte of a Note
      On but nothing else. */
  lemma RaisesIffUndeliverable(msg: seq<byte>)
    ensures Translate(msg).Raised? <==> !Deliverable(msg)
    ensures |msg| > 0 && Translate(msg).Raised? ==>
      && Command(msg[0]) == NoteOn
      && Translate(msg).written == [Channel(msg[0])]
      && Translate(msg).fault == (if |msg| == 1 then MissingNote else NoteOutOfTable(msg[1]))
  {
    NoChrFault(msg);
  }

  /** The bytes the callback writes for a deliverable message. */
  function Encode(msg: seq<byte>): (r: seq<byte>)
    requires Deliverable(msg)
    ensures Translate(msg) == Completed(r)
    ensures r == [] || |r| == 3
  {
    RaisesIffUndeliverable(msg);
    Translate(msg).written
  }

  /** A Note On sends the channel, then two bytes that rejoin to the note's
      period divided by 80; the high byte is at most 1. */
  lemma NoteOnFrame(msg: seq<byte>)
    requires Deliverable(msg) && Command(msg[0]) == NoteOn
    ensures Encode(msg) ==
      [Channel(msg[0]), HighByte(ScaledPeriod(msg[1])), LowByte(ScaledPeriod(msg[1]))]
    ensures JoinBytes(Encode(msg)[1], Encode(msg)[2]) == ScaledPeriod(msg[1])
    ensures Encode(msg)[1] <= 1
  {
    SplitJoin(ScaledPeriod(msg[1]));
    ScaledPeriodBound(msg[1]);
  }

  /** A Note Off sends the channel and two zero bytes, whatever its data. */
  lemma NoteOffFrame(msg: seq<byte>)
    requires Deliverable(msg) && Command(msg[0]) == NoteOff
    ensures Encode(msg) == [Channel(msg[0]), 0, 0]
  {
  }

  /** Exactly the Note On and Note Off messages send anything; whatever is
      sent starts with the channel. */
  lemma SendsIffNote(msg: seq<byte>)
    requires Deliverable(msg)
    ensures Encode(msg) != [] <==> Command(msg[0]) == NoteOn || Command(msg[0]) == NoteOff
    ensures Encode(msg) != [] ==> Encode(msg)[0] == Channel(msg[0])
  {
  }

  /** The bytes sent depend on the status byte and, for a Note On, the
      note; the velocity and any further data are ignored. */
  lemma OnlyStatusAndNoteMatter(m1: seq<byte>, m2: seq<byte>)
    requires Deliverable(m1) && Deliverable(m2) && m1[0] == m2[0]
    requires Command(m1[0]) == NoteOn ==> m1[1] == m2[1]
    ensures Encode(m1) == Encode(m2)
  {
  }

  /** A Note On sends the same bytes as a Note Off on its channel exactly
      when the note is outside the populated octaves (its entry is 0). */
  lemma SilentNoteOnIsNoteOff(on: seq<byte>, off: seq<byte>)
    requires Deliverable(on) && Command(on[0]) == NoteOn
    requires Deliverable(off) && Command(off[0]) == NoteOff
    requires Channel(on[0]) == Channel(off[0])
    ensures Encode(on) == Encode(off) <==> !Sounding(on[1])
  {
    NoteOnFrame(on);
    NoteOffFrame(off);
    ScaledPeriodBound(on[1]);
    var r := Encode(on);
    assert r == Encode(off) <==> r[1] == 0 && r[2] == 0;
    assert JoinBytes(r[1], r[2]) == ScaledPeriod(on[1]);
  }

  /** Two Note Ons for playable notes send the same bytes exactly when they
      are on the same channel and for the same note. */
  lemma PlayableNotesDistinct(m1: seq<byte>, m2: seq<byte>)
    requires Deliverable(m1) && Command(m1[0]) == NoteOn && Sounding(m1[1])
    requires Deliverable(m2) && Command(m2[0]) == NoteOn && Sounding(m2[1])
    ensures Encode(m1) == Encode(m2) <==> Channel(m1[0]) == Channel(m2[0]) && m1[1] == m2[1]
  {
    NoteOnFrame(m1);
    NoteOnFrame(m2);
    if m1[1] < m2[1] {
      ScaledStrictlyDecreasing(m1[1], m2[1]);
    } else if m2[1] < m1[1] {
      ScaledStrictlyDecreasing(m2[1], m1[1]);
    }
  }

  /** A decoder defined here as the inverse of the `[channel, hi, lo]`
      layout the callback writes: a channel and the period that the high and
      low bytes join to. */
  datatype Frame = Frame(channel: nat, period: nat)

  function Serialize(f: Frame): (b: seq<byte>)
    requires f.channel < 256 && f.period < 0x1_0000
  {
    [f.channel, HighByte(f.period), LowByte(f.period)]
  }

  function Deserialize(b: seq<byte>): Frame
    requires |b| == 3
  {
    Frame(b[0], JoinBytes(b[1], b[2]))
  }

  /** Serializing and deserializing are inverse to each other. */
  lemma FrameRoundTrip(f: Frame, b: seq<byte>)
    requires f.channel < 256 && f.period < 0x1_0000
    requires |b| == 3
    ensures Deserialize(Serialize(f)) == f
    ensures JoinBytes(b[1], b[2]) < 0x1_0000 && Serialize(Deserialize(b)) == b
  {
    SplitJoin(f.period);
    JoinSplit(b[1], b[2]);
  }

  /** Decoding the bytes sent recovers exactly the channel and the scaled
      period of a Note On, or the channel and 0 for a Note Off. */
  lemma EncodeDecodes(msg: seq<byte>)
    requires Deliverable(msg) && Encode(msg) != []
    ensures |Encode(msg)| == 3
    ensures Deserialize(Encode(msg)) ==
      Frame(Channel(msg[0]), if Command(msg[0]) == NoteOn then ScaledPeriod(msg[1]) else 0)
  {
    if Command(msg[0]) == NoteOn {
      NoteOnFrame(msg);
    }
  }
}
