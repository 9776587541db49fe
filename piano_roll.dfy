/** The encoder of midicsv_compressor as values: the note-state roll, how one
    midicsv line changes it, and the Cary text each transposition prints.
    The class in module Compressor realises these functions on arrays. */
module PianoRoll {
  import opened Strings

  /** PITCH_COUNT: pitch columns of the roll. */
  const PitchCount: nat := 110
  /** Quantized time steps of the roll. */
  const Steps: nat := 150000
  /** MIDI channels covered by the allow-list. */
  const Channels: nat := 128
  /** MINIMUM_PITCH: the pitch printed as glyph 33 at transposition 0. */
  const MinimumPitch: int := 22
  /** Lowest pitch the emitter looks at. */
  const PitchFloor: nat := 24
  /** quantization_size before any Tempo line. */
  const InitialQuantum: real := 40.0
  /** A newline follows every step x with x % LineSteps == LineSteps - 1. */
  const LineSteps: nat := 50

  /** Field 2 of a midicsv record, as far as the encoder tells kinds apart. */
  datatype Kind = Tempo | ProgramC | NoteOnC | NoteOffC | OtherKind

  /** One midicsv line split on ", ", with the fields the encoder parses
      already read as numbers. */
  datatype Line = Line(
    fieldCount: nat,  // number of ", "-separated fields
    kind: Kind,       // field 2
    quoted: bool,     // the line contains a double quote
    track: int,       // field 0
    ticks: nat,       // field 1
    field3: int,      // channel (Program_c, note events) or tempo (Tempo)
    field4: int,      // instrument (Program_c) or pitch (note events)
    field5: int)      // velocity (note events) or division (Tempo)

  predicate IsTempo(l: Line) { l.fieldCount >= 6 && l.kind == Tempo }
  predicate IsProgram(l: Line) { l.fieldCount >= 5 && l.kind == ProgramC }
  /** Lines that reach the note branch: six fields or more and no quote. */
  predicate IsEvent(l: Line) { l.fieldCount >= 6 && !l.quoted }
  /** A note-on with positive volume. */
  predicate Opens(l: Line) { l.kind == NoteOnC && l.field5 >= 1 }
  /** A note-off, or a note-on with volume 0. */
  predicate Closes(l: Line) { (l.kind == NoteOnC && l.field5 == 0) || l.kind == NoteOffC }

  /** Piano family: instruments 0 to 7. */
  predicate IsPiano(instrument: int) { 0 <= instrument <= 7 }

  /** The quantum after this line's Tempo branch, over exact reals: a Tempo
      line with tempo v and division d sets it to the quantum times v of
      which is 50000 * d; any other line keeps it. */
  function QuantumAfter(q: real, l: Line): (q': real)
    requires IsTempo(l) ==> l.field3 != 0
    ensures !IsTempo(l) ==> q' == q
    ensures IsTempo(l) ==> q' * l.field3 as real == 50000.0 * l.field5 as real
  {
    if IsTempo(l) then (50000.0 / l.field3 as real) * l.field5 as real else q
  }

  /** The allow-list after this line's Program_c branch. */
  function AllowAfter(allow: seq<bool>, l: Line): (a: seq<bool>)
    requires |allow| == Channels
    requires IsProgram(l) ==> 0 <= l.field3 < Channels
    ensures |a| == Channels
    ensures IsProgram(l) ==> a[l.field3] == IsPiano(l.field4)
    ensures forall ch :: 0 <= ch < Channels && (!IsProgram(l) || ch != l.field3) ==> a[ch] == allow[ch]
  {
    if IsProgram(l) then allow[l.field3 := IsPiano(l.field4)] else allow
  }

  /** `(ticks / q) as usize`: floor for a positive quantum, and Rust's
      saturating float-to-integer cast otherwise (a negative quotient or NaN
      gives 0, +infinity gives usize::MAX, which is past the roll). */
  function Quantize(ticks: nat, q: real): (step: nat)
    ensures q > 0.0 ==> step as real <= ticks as real / q < step as real + 1.0
    ensures q < 0.0 ==> step == 0
    ensures q == 0.0 ==> (step == 0 <==> ticks == 0) && (ticks > 0 ==> step >= Steps)
  {
    if q > 0.0 then
      var x := ticks as real / q;
      assert x >= 0.0;
      x.Floor
    else if q < 0.0 || ticks == 0 then 0
    else Steps
  }

  /** What a line does to the roll, given the allow-list and quantum after its
      own Program_c and Tempo branches. */
  datatype Effect = NoChange | Open(time: nat, pitch: int) | Close(time: nat, pitch: int)

  function EffectOf(l: Line, allow: seq<bool>, q: real): Effect
    requires |allow| == Channels
    requires IsEvent(l) ==> 0 <= l.field3 < Channels
  {
    if IsEvent(l) && allow[l.field3] && l.track <= 8 then
      var time := Quantize(l.ticks, q);
      if time >= Steps then NoChange
      else if Opens(l) then Open(time, l.field4)
      else if Closes(l) then Close(time, l.field4)
      else NoChange
    else NoChange
  }

  /** The encoder's state as a value: `cols[p][t]` is the cell the source
      calls notes[t][p]. */
  datatype Roll = Roll(cols: seq<seq<int>>, allow: seq<bool>, quantum: real)

  predicate Shaped(cols: seq<seq<int>>)
  {
    |cols| == PitchCount && forall p :: 0 <= p < |cols| ==> |cols[p]| == Steps
  }

  predicate WellShaped(r: Roll)
  {
    Shaped(r.cols) && |r.allow| == Channels
  }

  /** The state `new` and `reset_state` produce: every channel allowed and
      every cell 0, with the quantum given. */
  function Fresh(q: real): (r: Roll)
    ensures WellShaped(r)
  {
    Roll(seq(PitchCount, p => seq(Steps, t => 0)), seq(Channels, ch => true), q)
  }

  /** The line does not make the source panic: the fields it unwraps parse
      (numbers here, so only the sign of usize fields is left) and every
      index is in bounds. A Tempo line with tempo 0 is excluded as well: in
      f32 it gives an infinite or NaN quantum, and the source then
      quantizes every later note to step 0. */
  predicate Safe(r: Roll, l: Line)
    requires WellShaped(r)
  {
    && (IsTempo(l) ==> l.field3 != 0)
    && (IsProgram(l) ==> 0 <= l.field3 < Channels)
    && (IsEvent(l) ==> 0 <= l.field3 < Channels)
    && (IsEvent(l) && AllowAfter(r.allow, l)[l.field3] && l.track <= 8 ==> l.field4 >= 0)
    && match EffectOf(l, AllowAfter(r.allow, l), QuantumAfter(r.quantum, l))
       case Open(_, p) => p < PitchCount
       case Close(t, p) => t >= 1 ==> p < PitchCount
       case NoChange => true
  }

  /** Truncating `v / 2`, as Rust's `/` on i32. */
  function Half(v: int): int
  {
    if v >= 0 then v / 2 else -((-v) / 2)
  }

  /** `(v / 2) * 2 + 2`: an onset 1 becomes 2, an even v becomes v + 2. */
  function Sustain(v: int): (w: int)
    ensures v == 1 ==> w == 2
    ensures v % 2 == 0 ==> w == v + 2
    ensures w % 2 == 0
  {
    Half(v) * 2 + 2
  }

  /** Note-on: write 1 into cell `t` only if it is still 0. */
  function OpenCol(col: seq<int>, t: nat): (c: seq<int>)
    requires t < |col|
    ensures |c| == |col|
    ensures c[t] == if col[t] == 0 then 1 else col[t]
    ensures forall k :: 0 <= k < |col| && k != t ==> c[k] == col[k]
  {
    if col[t] == 0 then col[t := 1] else col
  }

  /** The backward scan of a close: the nearest step below `time` whose cell
      is odd, or -1 when every cell below `time` is even. */
  function OnsetBefore(col: seq<int>, time: nat): (j: int)
    requires time <= |col|
    ensures -1 <= j < time
    ensures j >= 0 ==> col[j] % 2 != 0
    ensures forall k :: j < k < time ==> col[k] % 2 == 0
    decreases time
  {
    if time == 0 then -1
    else if col[time - 1] % 2 != 0 then time - 1
    else OnsetBefore(col, time - 1)
  }

  /** The nearest odd cell below `time` is the only step j with an odd cell
      at j (or j == -1) and only even cells strictly between j and `time`. */
  lemma {:induction false} OnsetBeforeUnique(col: seq<int>, time: nat, j: int)
    requires time <= |col| && -1 <= j < time
    requires j >= 0 ==> col[j] % 2 != 0
    requires forall k :: j < k < time ==> col[k] % 2 == 0
    ensures OnsetBefore(col, time) == j
    decreases time
  {
    if time > 0 && j < time - 1 {
      OnsetBeforeUnique(col, time - 1, j);
    }
  }

  /** Note-off: every cell in [j, time) is rewritten by Sustain, where j is
      the onset the backward scan finds; nothing changes if there is none. */
  function CloseCol(col: seq<int>, time: nat): (c: seq<int>)
    requires time <= |col|
    ensures |c| == |col|
    ensures forall k :: 0 <= k < |col| ==>
      c[k] == if 0 <= OnsetBefore(col, time) <= k < time then Sustain(col[k]) else col[k]
  {
    var j := OnsetBefore(col, time);
    if j < 0 then col
    else seq(|col|, k requires 0 <= k < |col| => if j <= k < time then Sustain(col[k]) else col[k])
  }

  /** The roll after an effect: only the effect's pitch column changes. */
  function Apply(cols: seq<seq<int>>, e: Effect): (c: seq<seq<int>>)
    requires Shaped(cols)
    requires e.Open? ==> e.time < Steps && 0 <= e.pitch < PitchCount
    requires e.Close? ==> e.time < Steps
    ensures Shaped(c)
  {
    match e
    case NoChange => cols
    case Open(t, p) => cols[p := OpenCol(cols[p], t)]
    case Close(t, p) => if 0 <= p < PitchCount then cols[p := CloseCol(cols[p], t)] else cols
  }

  /** One iteration of the per-line loop of `process_file`: the Tempo branch,
      then the Program_c branch, then the note branch, in that order. */
  function ApplyLine(r: Roll, l: Line): (r': Roll)
    requires WellShaped(r) && Safe(r, l)
    ensures WellShaped(r')
  {
    var q := QuantumAfter(r.quantum, l);
    var allow := AllowAfter(r.allow, l);
    Roll(Apply(r.cols, EffectOf(l, allow, q)), allow, q)
  }

  /** Every line of a file is safe in the state the lines before it leave. */
  predicate SafeLines(r: Roll, lines: seq<Line>)
    requires WellShaped(r)
    decreases |lines|
  {
    lines == [] || (Safe(r, lines[0]) && SafeLines(ApplyLine(r, lines[0]), lines[1..]))
  }

  /** The whole per-line loop of `process_file`. */
  function ApplyLines(r: Roll, lines: seq<Line>): (r': Roll)
    requires WellShaped(r) && SafeLines(r, lines)
    ensures WellShaped(r')
    decreases |lines|
  {
    if lines == [] then r else ApplyLines(ApplyLine(r, lines[0]), lines[1..])
  }

  // ---------------------------------------------------------------------
  // Properties of the roll

  /** A cell is an unmatched onset (1) or a non-negative even count. */
  predicate CellOk(v: int) { v == 1 || (v >= 0 && v % 2 == 0) }

  predicate CellsOk(cols: seq<seq<int>>)
  {
    forall p, t :: 0 <= p < |cols| && 0 <= t < |cols[p]| ==> CellOk(cols[p][t])
  }

  /** A close keeps every cell an onset or a non-negative even count, and
      leaves [j, time) without any onset: each of those cells is even and at
      least 2, so it prints, and no later scan can stop there. */
  lemma CloseKeepsCells(col: seq<int>, time: nat)
    requires time <= |col|
    requires forall k :: 0 <= k < |col| ==> CellOk(col[k])
    ensures forall k :: 0 <= k < |col| ==> CellOk(CloseCol(col, time)[k])
    ensures var j := OnsetBefore(col, time);
      j >= 0 ==> forall k :: j <= k < time ==> CloseCol(col, time)[k] % 2 == 0 && CloseCol(col, time)[k] >= 2
  {
    var j := OnsetBefore(col, time);
    forall k | 0 <= k < |col|
      ensures CellOk(CloseCol(col, time)[k])
      ensures 0 <= j <= k < time ==> CloseCol(col, time)[k] % 2 == 0 && CloseCol(col, time)[k] >= 2
    {
      if 0 <= j <= k < time {
        assert CellOk(col[k]);
      }
    }
  }

  /** A second close at the same step cannot reuse the onset the first one
      consumed: its scan stops strictly below it, or finds nothing. */
  lemma SecondCloseScansBelow(col: seq<int>, time: nat)
    requires time <= |col|
    requires OnsetBefore(col, time) >= 0
    ensures OnsetBefore(CloseCol(col, time), time) < OnsetBefore(col, time)
  {
    var c := CloseCol(col, time);
    var j' := OnsetBefore(c, time);
    assert j' >= 0 ==> c[j'] % 2 != 0;
  }

  /** One line keeps every cell an onset or a non-negative even count. */
  lemma ApplyLineKeepsCells(r: Roll, l: Line)
    requires WellShaped(r) && Safe(r, l) && CellsOk(r.cols)
    ensures CellsOk(ApplyLine(r, l).cols)
  {
    var e := EffectOf(l, AllowAfter(r.allow, l), QuantumAfter(r.quantum, l));
    var c := ApplyLine(r, l).cols;
    match e
    case NoChange =>
    case Open(t, p) =>
      forall q, k | 0 <= q < |c| && 0 <= k < |c[q]| ensures CellOk(c[q][k]) {
        assert CellOk(r.cols[q][k]);
      }
    case Close(t, p) =>
      if 0 <= p < PitchCount {
        CloseKeepsCells(r.cols[p], t);
        forall q, k | 0 <= q < |c| && 0 <= k < |c[q]| ensures CellOk(c[q][k]) {
          if q != p {
            assert CellOk(r.cols[q][k]);
          }
        }
      }
  }

  /** Invariant of a whole file: from a roll whose cells are onsets or even
      counts (the fresh roll is), every cell stays so. */
  lemma {:induction false} ApplyLinesKeepsCells(r: Roll, lines: seq<Line>)
    requires WellShaped(r) && SafeLines(r, lines) && CellsOk(r.cols)
    ensures CellsOk(ApplyLines(r, lines).cols)
    decreases |lines|
  {
    if lines != [] {
      ApplyLineKeepsCells(r, lines[0]);
      ApplyLinesKeepsCells(ApplyLine(r, lines[0]), lines[1..]);
    }
  }

  /** A line changes at most one pitch column: the one its note names. */
  lemma LineTouchesOneColumn(r: Roll, l: Line, q: nat)
    requires WellShaped(r) && Safe(r, l) && q < PitchCount
    requires IsEvent(l) ==> l.field4 != q
    ensures ApplyLine(r, l).cols[q] == r.cols[q]
  {
    var e := EffectOf(l, AllowAfter(r.allow, l), QuantumAfter(r.quantum, l));
    assert !e.NoChange? ==> e.pitch == l.field4 && IsEvent(l);
  }

  /** A note line leaves the roll as it is when its channel is not allowed,
      its track is above 8, or its step is past the roll. */
  lemma FilteredLineKeepsRoll(r: Roll, l: Line)
    requires WellShaped(r) && Safe(r, l) && IsEvent(l)
    requires !AllowAfter(r.allow, l)[l.field3] || l.track > 8
      || Quantize(l.ticks, QuantumAfter(r.quantum, l)) >= Steps
    ensures ApplyLine(r, l).cols == r.cols
  {
  }

  /** A Program_c line sets exactly its channel's entry, to whether the
      instrument is a piano, and changes no cell. */
  lemma ProgramLineSetsAllow(r: Roll, l: Line)
    requires WellShaped(r) && Safe(r, l) && IsProgram(l)
    ensures ApplyLine(r, l).allow == r.allow[l.field3 := IsPiano(l.field4)]
    ensures ApplyLine(r, l).cols == r.cols
  {
  }

  /** A close with no onset below it is silently ignored. */
  lemma UnmatchedCloseIsNoOp(col: seq<int>, time: nat)
    requires time <= |col|
    requires forall k :: 0 <= k < time ==> col[k] % 2 == 0
    ensures CloseCol(col, time) == col
  {
  }

  /** A note on at step 2 closed at step 5 sounds at steps 2, 3 and 4 only. */
  lemma SustainExample(col: seq<int>)
    requires |col| > 5
    requires forall k :: 0 <= k < |col| ==> col[k] == 0
    ensures forall k :: 0 <= k < |col| ==>
      (CloseCol(OpenCol(col, 2), 5)[k] >= 1 <==> 2 <= k < 5)
  {
    var c := OpenCol(col, 2);
    assert OnsetBefore(c, 5) == 2 by {
      assert c[4] == 0 && c[3] == 0 && c[2] == 1;
    }
  }

  /** Channel `ch` is barred before line i of a file: in the allow-list of
      `r`, or by a Program_c line among the first i lines. */
  predicate BarredBefore(r: Roll, lines: seq<Line>, i: nat, ch: int)
    requires WellShaped(r) && i <= |lines|
  {
    (0 <= ch < Channels && !r.allow[ch])
      || exists j :: 0 <= j < i && IsProgram(lines[j]) && lines[j].field3 == ch
  }

  /** When every Program_c line of a file picks a non-piano instrument and
      every note line's channel is barred before it, the channel filter
      drops all the notes and every cell stays as it was. */
  lemma {:induction false} NonPianoKeepsRoll(r: Roll, lines: seq<Line>)
    requires WellShaped(r) && SafeLines(r, lines)
    requires forall i :: 0 <= i < |lines| && IsProgram(lines[i]) ==> !IsPiano(lines[i].field4)
    requires forall i :: 0 <= i < |lines| && IsEvent(lines[i]) && (Opens(lines[i]) || Closes(lines[i])) ==>
      BarredBefore(r, lines, i, lines[i].field3)
    ensures ApplyLines(r, lines).cols == r.cols
    decreases |lines|
  {
    if lines != [] {
      var l := lines[0];
      var r' := ApplyLine(r, l);
      var rest := lines[1..];
      if IsEvent(l) && (Opens(l) || Closes(l)) {
        assert BarredBefore(r, lines, 0, l.field3);
        assert !AllowAfter(r.allow, l)[l.field3];
      }
      assert r'.cols == r.cols;
      forall ch | 0 <= ch < Channels && (!r.allow[ch] || (IsProgram(l) && l.field3 == ch))
        ensures !r'.allow[ch]
      {
      }
      forall i | 0 <= i < |rest| && IsEvent(rest[i]) && (Opens(rest[i]) || Closes(rest[i]))
        ensures BarredBefore(r', rest, i, rest[i].field3)
      {
        assert rest[i] == lines[i + 1];
        assert BarredBefore(r, lines, i + 1, rest[i].field3);
        if !(0 <= rest[i].field3 < Channels && !r.allow[rest[i].field3]) {
          var j :| 0 <= j < i + 1 && IsProgram(lines[j]) && lines[j].field3 == rest[i].field3;
          if j > 0 {
            assert rest[j - 1] == lines[j];
          }
        }
      }
      forall i | 0 <= i < |rest| && IsProgram(rest[i]) ensures !IsPiano(rest[i].field4) {
        assert rest[i] == lines[i + 1];
      }
      NonPianoKeepsRoll(r', rest);
    }
  }

  /** From the state `reset_state` leaves, a file whose note lines all use
      channels given a non-piano instrument by an earlier Program_c line,
      and whose Program_c lines all pick non-piano instruments, leaves every
      cell 0 (by StepSilent, no step of it then prints a glyph). */
  lemma NonPianoFileSilent(q: real, lines: seq<Line>)
    requires SafeLines(Fresh(q), lines)
    requires forall i :: 0 <= i < |lines| && IsProgram(lines[i]) ==> !IsPiano(lines[i].field4)
    requires forall i :: 0 <= i < |lines| && IsEvent(lines[i]) && (Opens(lines[i]) || Closes(lines[i])) ==>
      exists j :: 0 <= j < i && IsProgram(lines[j]) && lines[j].field3 == lines[i].field3
    ensures forall p, k :: 0 <= p < PitchCount && 0 <= k < Steps ==> ApplyLines(Fresh(q), lines).cols[p][k] == 0
  {
    forall i | 0 <= i < |lines| && IsEvent(lines[i]) && (Opens(lines[i]) || Closes(lines[i]))
      ensures BarredBefore(Fresh(q), lines, i, lines[i].field3)
    {
    }
    NonPianoKeepsRoll(Fresh(q), lines);
  }

  // ---------------------------------------------------------------------
  // Emission

  /** The glyph code of pitch y at a transposition. */
  function GlyphCode(y: int, t: int): int { 33 + (y - MinimumPitch + t) }

  /** Printable band of the Cary alphabet. */
  predicate InBand(code: int) { 33 <= code <= 126 }

  /** The glyphs of step x for pitches PitchFloor up to (not including) hi:
      one per sounding pitch whose code is in band, in pitch order. */
  function StepGlyphs(cols: seq<seq<int>>, x: nat, hi: nat, t: int): string
    requires Shaped(cols) && x < Steps && PitchFloor <= hi <= PitchCount
    // cols never changes between calls; putting it first keeps the verifier
    // from unrolling the recursion at the constant bound PitchCount
    decreases cols, hi
  {
    if hi == PitchFloor then []
    else
      var y := hi - 1;
      StepGlyphs(cols, x, y, t)
        + (if cols[y][x] >= 1 && InBand(GlyphCode(y, t)) then [GlyphCode(y, t) as char] else [])
  }

  /** The text of one step: its glyphs, a space only if there were any, and a
      newline after every fiftieth step. */
  function StepText(cols: seq<seq<int>>, x: nat, t: int): string
    requires Shaped(cols) && x < Steps
  {
    var g := StepGlyphs(cols, x, PitchCount, t);
    g + (if g != [] then " " else "") + (if x % LineSteps == LineSteps - 1 then "\n" else "")
  }

  /** The text of the first n steps at transposition t. */
  function Text(cols: seq<seq<int>>, n: nat, t: int): string
    requires Shaped(cols) && n <= Steps
    // cols never changes between calls; putting it first keeps the verifier
    // from unrolling the recursion at the constant bound Steps
    decreases cols, n
  {
    if n == 0 then [] else Text(cols, n - 1, t) + StepText(cols, n - 1, t)
  }

  /** The whole text written for one transposition: every step of the roll. */
  function Cary(cols: seq<seq<int>>, t: int): string
    requires Shaped(cols)
  {
    Text(cols, Steps, t)
  }

  /** Transpositions -6 to 5, one output file each. */
  function Transposition(i: nat): int { i as int - 6 }

  /** Every glyph of a step is printable, at least the code of the floor
      pitch and below the code of pitch hi. */
  lemma {:induction false} StepGlyphsBelow(cols: seq<seq<int>>, x: nat, hi: nat, t: int)
    requires Shaped(cols) && x < Steps && PitchFloor <= hi <= PitchCount
    ensures forall i :: 0 <= i < |StepGlyphs(cols, x, hi, t)| ==>
      && InBand(StepGlyphs(cols, x, hi, t)[i] as int)
      && GlyphCode(PitchFloor, t) <= StepGlyphs(cols, x, hi, t)[i] as int < GlyphCode(hi, t)
    decreases hi
  {
    if hi > PitchFloor {
      StepGlyphsBelow(cols, x, hi - 1, t);
    }
  }

  /** The glyphs of a step are strictly ascending, so they come in ascending
      pitch order. */
  lemma {:induction false} StepGlyphsAscending(cols: seq<seq<int>>, x: nat, hi: nat, t: int)
    requires Shaped(cols) && x < Steps && PitchFloor <= hi <= PitchCount
    ensures forall i, j :: 0 <= i < j < |StepGlyphs(cols, x, hi, t)| ==>
      StepGlyphs(cols, x, hi, t)[i] < StepGlyphs(cols, x, hi, t)[j]
    decreases hi
  {
    if hi > PitchFloor {
      StepGlyphsAscending(cols, x, hi - 1, t);
      StepGlyphsBelow(cols, x, hi - 1, t);
    }
  }

  /** An in-band pitch y prints at step x under transposition t exactly when
      its cell is at least 1: clipping at one transposition does not hide it
      at another (and StepGlyphsBelow: nothing out of band ever prints). */
  lemma {:induction false} StepGlyphsMember(cols: seq<seq<int>>, x: nat, hi: nat, t: int, y: int)
    requires Shaped(cols) && x < Steps && PitchFloor <= hi <= PitchCount
    requires PitchFloor <= y < hi && InBand(GlyphCode(y, t))
    ensures GlyphCode(y, t) as char in StepGlyphs(cols, x, hi, t) <==> cols[y][x] >= 1
    decreases hi
  {
    var z := hi - 1;
    if y == z {
      StepGlyphsBelow(cols, x, z, t);
    } else {
      StepGlyphsMember(cols, x, z, t, y);
    }
  }

  /** Number of steps below n that print at least one glyph. */
  function SoundingSteps(cols: seq<seq<int>>, n: nat, t: int): nat
    requires Shaped(cols) && n <= Steps
    // cols never changes between calls; putting it first keeps the verifier
    // from unrolling the recursion at the constant bound Steps
    decreases cols, n
  {
    if n == 0 then 0
    else SoundingSteps(cols, n - 1, t) + (if StepGlyphs(cols, n - 1, PitchCount, t) != [] then 1 else 0)
  }

  /** Glyphs are never a space or a newline. */
  lemma GlyphsNoDelimiter(cols: seq<seq<int>>, x: nat, t: int)
    requires Shaped(cols) && x < Steps
    ensures forall i :: 0 <= i < |StepGlyphs(cols, x, PitchCount, t)| ==>
      StepGlyphs(cols, x, PitchCount, t)[i] != ' ' && StepGlyphs(cols, x, PitchCount, t)[i] != '\n'
  {
    StepGlyphsBelow(cols, x, PitchCount, t);
  }

  /** Counting a delimiter in glyphs, an optional space and an optional
      newline, when the glyphs hold no delimiter. */
  lemma DelimitedCount(g: string, sp: bool, nl: bool, c: char)
    requires forall i :: 0 <= i < |g| ==> g[i] != c
    ensures Count(g + (if sp then " " else "") + (if nl then "\n" else ""), c)
      == (if sp && c == ' ' then 1 else 0) + (if nl && c == '\n' then 1 else 0)
  {
    var s: string := if sp then " " else "";
    var n: string := if nl then "\n" else "";
    CountAbsent(g, c);
    CountAppend(g, s, c);
    CountAppend(g + s, n, c);
    if sp { CountOne(' ', c); }
    if nl { CountOne('\n', c); }
  }

  /** One step's text holds one space if it printed a glyph, and one newline
      if it closes a line of fifty steps. */
  lemma StepTextDelimiters(cols: seq<seq<int>>, x: nat, t: int)
    requires Shaped(cols) && x < Steps
    ensures Count(StepText(cols, x, t), ' ') == if StepGlyphs(cols, x, PitchCount, t) != [] then 1 else 0
    ensures Count(StepText(cols, x, t), '\n') == if x % LineSteps == LineSteps - 1 then 1 else 0
  {
    var g := StepGlyphs(cols, x, PitchCount, t);
    GlyphsNoDelimiter(cols, x, t);
    DelimitedCount(g, g != [], x % LineSteps == LineSteps - 1, ' ');
    DelimitedCount(g, g != [], x % LineSteps == LineSteps - 1, '\n');
  }

  /** The text of n steps holds one space per step that printed a glyph: an
      empty step leaves no delimiter. */
  lemma {:induction false} TextSpaces(cols: seq<seq<int>>, n: nat, t: int)
    requires Shaped(cols) && n <= Steps
    ensures Count(Text(cols, n, t), ' ') == SoundingSteps(cols, n, t)
    decreases n
  {
    if n > 0 {
      var x := n - 1;
      var before, step := Text(cols, x, t), StepText(cols, x, t);
      assert Text(cols, n, t) == before + step;
      TextSpaces(cols, x, t);
      StepTextDelimiters(cols, x, t);
      CountAppend(before, step, ' ');
      assert SoundingSteps(cols, n, t) == SoundingSteps(cols, x, t) + Count(step, ' ');
    }
  }

  /** The text of n steps holds one newline per fifty steps. */
  lemma {:induction false} TextNewlines(cols: seq<seq<int>>, n: nat, t: int)
    requires Shaped(cols) && n <= Steps
    ensures Count(Text(cols, n, t), '\n') == n / LineSteps
    decreases n
  {
    if n > 0 {
      var x := n - 1;
      var before, step := Text(cols, x, t), StepText(cols, x, t);
      assert Text(cols, n, t) == before + step;
      TextNewlines(cols, x, t);
      StepTextDelimiters(cols, x, t);
      CountAppend(before, step, '\n');
      assert n / LineSteps == x / LineSteps + (if x % LineSteps == LineSteps - 1 then 1 else 0);
    }
  }

  /** A step whose cells are all 0 prints no glyph: its text is at most the
      newline that closes a line of fifty steps. */
  lemma StepSilent(cols: seq<seq<int>>, x: nat, t: int)
    requires Shaped(cols) && x < Steps
    requires forall p :: 0 <= p < PitchCount ==> cols[p][x] == 0
    ensures StepGlyphs(cols, x, PitchCount, t) == []
    ensures StepText(cols, x, t) == if x % LineSteps == LineSteps - 1 then "\n" else ""
  {
    var g := StepGlyphs(cols, x, PitchCount, t);
    if g != [] {
      StepGlyphsBelow(cols, x, PitchCount, t);
      var y := g[0] as int - 33 + MinimumPitch - t;
      assert GlyphCode(y, t) == g[0] as int;
      StepGlyphsMember(cols, x, PitchCount, t, y);
      assert false;
    }
  }
}
