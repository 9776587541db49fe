/** `MidiDecompressor` of midicsv_decompressor: a boolean grid and a step
    cursor, filled by scanning a Cary text and then read row by row to
    emit note records. Each method is specified by the value-level
    functions of module CaryDecoding. */
module Decompressor {
  import opened Strings
  import opened CaryDecoding

  class MidiDecompressor {
    /** `notes[t, p]`: whether pitch column p sounds at step t. */
    var notes: array2<bool>
    /** The step cursor. */
    var pointerAt: nat
    /** The grid as rows: `rows[t][p] == notes[t, p]`. */
    ghost var rows: seq<seq<bool>>

    /** The grid has MAX_TIME_STEPS rows of PITCH_COUNT cells. */
    predicate Sized()
      reads this
    {
      notes.Length0 == MaxTimeSteps && notes.Length1 == PitchCount
    }

    ghost predicate Valid()
      reads this, notes
    {
      && Sized()
      && |rows| == MaxTimeSteps && Rect(rows)
      && forall t, p :: 0 <= t < MaxTimeSteps && 0 <= p < PitchCount ==> notes[t, p] == rows[t][p]
    }

    /** `new`: every cell false and the cursor at 0. */
    constructor ()
      ensures Valid() && fresh(notes)
      ensures pointerAt == 0 && rows == Grid([])
    {
      notes := new bool[MaxTimeSteps, PitchCount]((t, p) => false);
      pointerAt := 0;
      rows := Grid([]);
    }

    /** The cells and cursor after reading `read` from a cleared grid. */
    ghost predicate HasRead(read: string)
      reads this, notes
      requires Sized()
    {
      && pointerAt == Count(read, ' ')
      && forall t, p :: 0 <= t < MaxTimeSteps && 0 <= p < PitchCount ==> notes[t, p] == Marked(read, t, p)
    }

    /** The char loop over one line: a space moves the cursor on, a glyph
        sets its column in the cursor's row, any other char is skipped. */
    method ReadLine(ghost before: string, line: string)
      requires Sized() && HasRead(before) && Fits(before + line)
      modifies this, notes
      ensures Sized() && notes == old(notes)
      ensures HasRead(before + line)
    {
      assert line[..0] == [] && before + [] == before;
      for k := 0 to |line|
        invariant Sized() && notes == old(notes)
        invariant HasRead(before + line[..k])
      {
        ghost var read := before + line[..k];
        var c := line[k];
        assert read + [c] == before + line[..k + 1];
        assert (before + line)[..|read|] == read && (before + line)[|read|] == c;
        MarkedStep(read, c);
        if c == ' ' {
          pointerAt := pointerAt + 1;
        } else {
          var pitch := c as int - 32 - 1;
          if pitch >= 0 && pitch < PitchCount {
            notes[pointerAt, pitch] := true;
          }
        }
      }
      assert line[..|line|] == line;
    }

    /** `load_compressed_file` on the lines of a file: clear the grid and
        the cursor, read every line's chars, then move the cursor past the
        last row read. Line breaks are not chars of any line. */
    method LoadCompressedFile(lines: seq<string>)
      requires Valid() && Fits(Flatten(lines))
      modifies this, notes
      ensures Valid() && notes == old(notes)
      ensures pointerAt == Count(Flatten(lines), ' ') + 1
      ensures rows == Grid(Flatten(lines))
    {
      forall t, p | 0 <= t < MaxTimeSteps && 0 <= p < PitchCount {
        notes[t, p] := false;
      }
      pointerAt := 0;
      ghost var text := Flatten(lines);
      assert lines[..0] == [];
      for i := 0 to |lines|
        invariant Sized() && notes == old(notes)
        invariant HasRead(Flatten(lines[..i]))
      {
        FlattenPrefix(lines, i, |lines[i]|);
        assert lines[i][..|lines[i]|] == lines[i];
        FitsPrefix(text, Flatten(lines[..i]) + lines[i]);
        ReadLine(Flatten(lines[..i]), lines[i]);
      }
      assert lines[..|lines|] == lines;
      pointerAt := pointerAt + 1;
      rows := Grid(text);
    }

    /** The body of the inner loop of `generate_midi_csv`: a note-on when
        the cell is set and the one of the previous step is not, a note-off
        in the opposite case. */
    method CellRecords(time: nat, pitch: nat) returns (rs: seq<Record>)
      requires Valid() && time < MaxTimeSteps && pitch < EmittedPitches
      ensures rs == Edge(rows, time, pitch)
    {
      rs := [];
      var current := notes[time, pitch];
      var previous := if time > 0 then notes[time - 1, pitch] else false;
      if current && !previous {
        rs := rs + [Record(2, time * Multi, NoteOn(1, pitch + NoteOffset, 127))];
      }
      if !current && previous {
        rs := rs + [Record(2, time * Multi, NoteOff(1, pitch + NoteOffset, 0))];
      }
    }

    /** The records `generate_midi_csv` writes: the fixed prologue, for
        every step below the cursor and every column below 87 an on at a
        rising edge and an off at a falling edge, then the fixed epilogue. */
    method GenerateMidiCsv() returns (records: seq<Record>)
      requires Valid() && pointerAt <= MaxTimeSteps
      ensures records == Output(rows, pointerAt)
    {
      var end := pointerAt * Multi;
      records := Prologue(end);
      for time := 0 to pointerAt
        invariant records == Prologue(end) + Events(rows, time)
      {
        ghost var done := Prologue(end) + Events(rows, time);
        for pitch := 0 to EmittedPitches
          invariant records == done + StepEvents(rows, time, pitch)
        {
          var cell := CellRecords(time, pitch);
          records := records + cell;
        }
      }
      records := records + Epilogue(end);
    }
  }
}
