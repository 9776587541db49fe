/** `MidiProcessor` of midicsv_compressor: the note grid, the channel
    allow-list and the quantum as mutable state, updated line by line and
    then printed at twelve transpositions. Each method is specified by the
    value-level functions of module PianoRoll. */
module Compressor {
  import opened PianoRoll

  class MidiProcessor {
    /** `notes[t, p]`: the cell of pitch p at quantized step t. */
    var notes: array2<int>
    var quantizationSize: real
    var allow: array<bool>
    /** The grid as pitch-major columns: `cols[p][t] == notes[t, p]`. */
    ghost var cols: seq<seq<int>>

    ghost predicate Valid()
      reads this, notes, allow
    {
      && notes.Length0 == Steps && notes.Length1 == PitchCount
      && allow.Length == Channels
      && Shaped(cols)
      && forall t, p :: 0 <= t < Steps && 0 <= p < PitchCount ==> notes[t, p] == cols[p][t]
    }

    /** The processor's state as a PianoRoll value. */
    ghost function State(): Roll
      reads this, allow
    {
      Roll(cols, allow[..], quantizationSize)
    }

    /** `new`: an all-zero grid, every channel allowed, quantum 40. */
    constructor ()
      ensures Valid() && fresh(notes) && fresh(allow)
      ensures State() == Fresh(InitialQuantum)
    {
      notes := new int[Steps, PitchCount]((t, p) => 0);
      quantizationSize := InitialQuantum;
      allow := new bool[Channels](ch => true);
      cols := Fresh(InitialQuantum).cols;
    }

    /** `reset_state`: every channel allowed and every cell 0; the quantum of
        the previous file is kept. */
    method ResetState()
      requires Valid()
      modifies this, notes, allow
      ensures Valid() && notes == old(notes) && allow == old(allow)
      ensures State() == Fresh(old(quantizationSize))
    {
      forall ch | 0 <= ch < Channels {
        allow[ch] := true;
      }
      for i := 0 to Steps
        modifies notes
        invariant forall t, p :: 0 <= t < i && 0 <= p < PitchCount ==> notes[t, p] == 0
      {
        for j := 0 to PitchCount
          modifies notes
          invariant forall t, p :: 0 <= t < i && 0 <= p < PitchCount ==> notes[t, p] == 0
          invariant forall p :: 0 <= p < j ==> notes[i, p] == 0
        {
          notes[i, j] := 0;
        }
      }
      cols := Fresh(quantizationSize).cols;
      assert allow[..] == Fresh(quantizationSize).allow;
    }

    /** The close branch: scan down from `time - 1` while the cell is even;
        if an odd cell j is found, every cell of [j, time) becomes
        `(v / 2) * 2 + 2`. */
    method CloseNote(time: nat, pitch: int)
      requires Valid() && time < Steps && (time >= 1 ==> 0 <= pitch < PitchCount)
      modifies this, notes
      ensures Valid() && notes == old(notes) && allow == old(allow)
      ensures quantizationSize == old(quantizationSize)
      ensures cols == if 0 <= pitch < PitchCount then old(cols)[pitch := CloseCol(old(cols)[pitch], time)] else old(cols)
    {
      var j: int := time as int - 1;
      while j >= 0 && notes[j, pitch] % 2 == 0
        invariant -1 <= j < time
        invariant forall k :: j < k < time ==> notes[k, pitch] % 2 == 0
        decreases j
      {
        j := j - 1;
      }
      if j >= 0 {
        ghost var col := cols[pitch];
        OnsetBeforeUnique(col, time, j);
        var end := if time >= j + 1 then time else j + 1;
        for k := j to end
          modifies notes
          invariant forall t, p :: 0 <= t < Steps && 0 <= p < PitchCount ==>
            notes[t, p] == if p == pitch && j <= t < k then Sustain(cols[p][t]) else cols[p][t]
        {
          notes[k, pitch] := Half(notes[k, pitch]) * 2 + 2;
        }
        cols := cols[pitch := CloseCol(col, time)];
      } else if 0 <= pitch < PitchCount {
        OnsetBeforeUnique(cols[pitch], time, j);
      }
    }

    /** One iteration of the per-line loop: the Tempo branch, the Program_c
        branch and the note branch. */
    method ProcessLine(line: Line)
      requires Valid() && Safe(State(), line)
      modifies this, notes, allow
      ensures Valid() && notes == old(notes) && allow == old(allow)
      ensures State() == ApplyLine(old(State()), line)
    {
      if IsTempo(line) {
        quantizationSize := (50000.0 / line.field3 as real) * line.field5 as real;
      }
      if IsProgram(line) {
        allow[line.field3] := IsPiano(line.field4);
      }
      assert allow[..] == AllowAfter(old(allow[..]), line);
      if IsEvent(line) {
        var channel := line.field3;
        if allow[channel] && line.track <= 8 {
          var time := Quantize(line.ticks, quantizationSize);
          var pitch := line.field4;
          if time < Steps {
            if Opens(line) && notes[time, pitch] == 0 {
              notes[time, pitch] := 1;
              cols := cols[pitch := OpenCol(cols[pitch], time)];
            } else if Closes(line) {
              CloseNote(time, pitch);
            }
          }
        }
      }
    }

    /** The `line` built for step x: the glyphs of its sounding in-band
        pitches in ascending order, then a space if there is any, then a
        newline after every fiftieth step. */
    method StepLine(x: nat, transposition: int) returns (line: string)
      requires Valid() && x < Steps
      ensures line == StepText(cols, x, transposition)
    {
      line := [];
      for y := PitchFloor to PitchCount
        invariant line == StepGlyphs(cols, x, y, transposition)
      {
        assert notes[x, y] == cols[y][x];
        if notes[x, y] >= 1 {
          var theNum := 33 + (y - MinimumPitch + transposition);
          if 33 <= theNum <= 126 {
            line := line + [theNum as char];
          }
        }
      }
      if line != [] {
        line := line + " ";
      }
      if x % LineSteps == LineSteps - 1 {
        line := line + "\n";
      }
    }

    /** The text of one transposition: the lines of all steps in order. */
    method Emit(transposition: int) returns (text: string)
      requires Valid()
      ensures text == Cary(cols, transposition)
    {
      text := [];
      for x := 0 to Steps
        invariant text == Text(cols, x, transposition)
      {
        var line := StepLine(x, transposition);
        text := text + line;
      }
    }

    /** `process_file` without its file I/O: reset, fold every line into the
        state, then the texts at transpositions -6 to 5, in that order. */
    method ProcessFile(lines: seq<Line>) returns (outputs: seq<string>)
      requires Valid() && SafeLines(Fresh(quantizationSize), lines)
      modifies this, notes, allow
      ensures Valid() && notes == old(notes) && allow == old(allow)
      ensures State() == ApplyLines(Fresh(old(quantizationSize)), lines)
      ensures |outputs| == 12
      ensures forall i :: 0 <= i < 12 ==> outputs[i] == Cary(cols, Transposition(i))
    {
      ghost var start := Fresh(quantizationSize);
      ResetState();
      for i := 0 to |lines|
        invariant Valid() && notes == old(notes) && allow == old(allow)
        invariant WellShaped(State()) && SafeLines(State(), lines[i..])
        invariant ApplyLines(State(), lines[i..]) == ApplyLines(start, lines)
      {
        assert lines[i..][1..] == lines[i + 1..];
        ProcessLine(lines[i]);
      }
      assert lines[|lines|..] == [];
      outputs := EmitAll();
    }

    /** The texts at transpositions -6 to 5, in that order. */
    method EmitAll() returns (outputs: seq<string>)
      requires Valid()
      ensures |outputs| == 12
      ensures forall i :: 0 <= i < 12 ==> outputs[i] == Cary(cols, Transposition(i))
    {
      outputs := [];
      for transposition := -6 to 6
        invariant |outputs| == transposition + 6
        invariant forall i :: 0 <= i < |outputs| ==> outputs[i] == Cary(cols, Transposition(i))
      {
        var text := Emit(transposition);
        var next := outputs + [text];
        forall i | 0 <= i < |next| ensures next[i] == Cary(cols, Transposition(i)) {
          if i < |outputs| {
            assert next[i] == outputs[i];
          } else {
            assert next[i] == text && Transposition(i) == transposition;
          }
        }
        outputs := next;
      }
    }
  }
}
