# Cary codec and one-hot utilities of simple-midi-ai

This project models, in Dafny, the three programs at the centre of
simple-midi-ai's data pipeline. The pipeline turns MIDI event logs (the
comma-separated text of the midicsv tool) into "Cary" piano-roll text and
back, and prepares that text for a character-level network.

- **The encoder** (`MidiProcessor` of midicsv_compressor):
  - It folds midicsv lines into a 150000 × 110 integer grid. A note-on
    writes 1 into an empty cell. A note-off scans back to the nearest odd
    cell and rewrites every cell from there up to the off's step by
    `(v / 2) * 2 + 2`.
  - `Program_c` lines keep a 128-entry allow-list of piano channels.
  - The grid is then printed at transpositions -6 to 5. Each step prints
    one glyph per sounding pitch from 24 to 109 whose code
    `33 + y - 22 + t` is in 33..126, a space if it printed any glyph, and
    a newline every fifty steps.
- **The decoder** (`MidiDecompressor` of midicsv_decompressor):
  - It scans a Cary text into a 20000 × 116 boolean grid. A step cursor
    moves on every space.
  - It then writes a midicsv prologue, an on record at every rising edge
    and an off record at every falling edge of columns 0 to 86, and an
    epilogue. Prologue and epilogue are fixed except for the end time
    `pointer_at * 40` of their End_track records.
- **The generator's text utilities** (midi_ai_generator):
  - `Vector::zeros`, `set` and `concatenate`.
  - The char-to-one-hot mapping, with and without its cache, and its
    extension to strings.
  - `batchify`, which cuts every window of 100 consecutive vectors.

Each mutable structure of the source is a Dafny class:

- `MidiProcessor` keeps `notes: array2<int>` and `allow: array<bool>`.
- `MidiDecompressor` keeps `notes: array2<bool>` and the cursor.
- `CharToOneHot` keeps its cache as a `map`.

The loops of the source are methods with loop invariants. Each method is
proved against value-level functions in modules `PianoRoll` and
`CaryDecoding`. Lemmas then prove the properties of those functions: the
cell invariant, edge detection, ordering, alternation, and the round trip
from encoder text to decoder grid (module `RoundTrip`).

Two behaviours of the programs as written are worth knowing.

- **The round trip shifts notes.** The encoder prints pitch `y` as glyph
  `33 + y - 22 + t`. The decoder maps glyph `c` to column `c - 33` and
  writes column `p` as note `p + 21`. So at transposition t, a pitch y
  whose column `y - 22 + t` is below 87 comes back as MIDI note
  `y - 1 + t` (`RoundTrip.RoundTripNote`). A pitch whose column is 87 or
  more (y = 109 at t = 0, y >= 104 at t = 5) is loaded into the decoder's
  grid but never written.
- **The generator rejects high glyphs.** It accepts only chars whose low
  byte is below 94. The Cary glyphs `^` to `~` (codes 94 to 126) are
  dropped, while the space is kept (`Generator.CaryGlyphsAccepted`).

## Model

| member | source | states |
|---|---|---|
| PianoRoll.QuantumAfter | midicsv_compressor/src/main.rs:37-44 | a Tempo line of six or more fields with tempo v and division d sets the quantum q' with q' * v = 50000 * d; every other line keeps the quantum |
| PianoRoll.AllowAfter | midicsv_compressor/src/main.rs:46-50 | a Program_c line sets its channel's entry to whether the instrument is 0..7; every other entry is kept |
| PianoRoll.Quantize | midicsv_compressor/src/main.rs:58 | the step is the floor of ticks / quantum for a positive quantum; a negative quantum gives 0; a zero quantum gives 0 for tick 0 and a step past the roll otherwise (saturating cast) |
| PianoRoll.Sustain | midicsv_compressor/src/main.rs:73 | `(v / 2) * 2 + 2` with truncating division turns an onset 1 into 2, adds 2 to an even value, and is always even |
| PianoRoll.OpenCol | midicsv_compressor/src/main.rs:63-64 | a note-on sets the cell to 1 only if it was 0; no other cell of the column changes |
| PianoRoll.OnsetBefore | midicsv_compressor/src/main.rs:66-69 | the backward scan stops at an odd cell below `time`, with only even cells between, or at -1 |
| PianoRoll.CloseCol | midicsv_compressor/src/main.rs:65-76 | a close rewrites exactly the cells in [onset, time) by Sustain and keeps every other cell, including cell `time` |
| PianoRoll.OnsetBeforeUnique | midicsv_compressor/src/main.rs:66-69 | the scan's stopping point is the unique j with an odd cell (or -1) and only even cells up to `time` |
| PianoRoll.CloseKeepsCells | midicsv_compressor/src/main.rs:65-76 | a close keeps every cell 1 or a non-negative even number, and leaves [onset, time) even and at least 2 |
| PianoRoll.SecondCloseScansBelow | midicsv_compressor/src/main.rs:66-75 | a second close at the same step stops strictly below the onset the first one consumed |
| PianoRoll.UnmatchedCloseIsNoOp | midicsv_compressor/src/main.rs:65-70 | a close with only even cells below it leaves the column unchanged |
| PianoRoll.SustainExample | midicsv_compressor/src/main.rs:63-75 | a note on at step 2 and off at step 5 sounds at steps 2, 3 and 4 only |
| PianoRoll.ApplyLineKeepsCells | midicsv_compressor/src/main.rs:52-79 | one line keeps every cell 1 or a non-negative even number |
| PianoRoll.ApplyLinesKeepsCells | midicsv_compressor/src/main.rs:33-80 | the whole per-line loop keeps that cell invariant from the fresh grid on |
| PianoRoll.LineTouchesOneColumn | midicsv_compressor/src/main.rs:52-79 | a line changes no pitch column but the one its note names |
| PianoRoll.FilteredLineKeepsRoll | midicsv_compressor/src/main.rs:56-62 | a note line leaves the grid unchanged when its channel is barred, its track is above 8, or its step is 150000 or more |
| PianoRoll.ProgramLineSetsAllow | midicsv_compressor/src/main.rs:46-50 | a Program_c line replaces exactly its channel's allow entry and changes no cell |
| PianoRoll.NonPianoKeepsRoll | midicsv_compressor/src/main.rs:46-56 | when every Program_c picks a non-piano instrument and every note line's channel is barred in the start state or by an earlier Program_c line, the whole file leaves the grid unchanged |
| PianoRoll.NonPianoFileSilent | midicsv_compressor/src/main.rs:33-56 | from the state `reset_state` leaves, a file whose note channels are all given non-piano instruments by earlier Program_c lines, and whose Program_c lines pick only non-pianos, leaves every cell 0 |
| Compressor.MidiProcessor.constructor | midicsv_compressor/src/main.rs:18-24 | the new processor has an all-zero grid, every channel allowed and quantum 40 |
| Compressor.MidiProcessor.ResetState | midicsv_compressor/src/main.rs:107-114 | the grid is all zero and every channel allowed, while the quantum keeps its old value |
| Compressor.MidiProcessor.CloseNote | midicsv_compressor/src/main.rs:65-76 | the scan and rewrite loops leave the grid equal to CloseCol applied to the pitch's column; other columns and the allow-list are untouched |
| Compressor.MidiProcessor.ProcessLine | midicsv_compressor/src/main.rs:35-79 | one iteration of the per-line loop turns the processor's state into ApplyLine of the old state |
| Compressor.MidiProcessor.StepLine | midicsv_compressor/src/main.rs:87-101 | the line built for step x is the step's glyphs in pitch order, then a space if any, then a newline at every fiftieth step |
| Compressor.MidiProcessor.Emit | midicsv_compressor/src/main.rs:86-103 | one transposition's output is the concatenation of the lines of all 150000 steps |
| Compressor.MidiProcessor.EmitAll | midicsv_compressor/src/main.rs:82-104 | twelve outputs, for transpositions -6 to 5 in order |
| Compressor.MidiProcessor.ProcessFile | midicsv_compressor/src/main.rs:26-105 | reset, then the fold of all lines into the state, then the twelve texts of the final grid |
| PianoRoll.StepGlyphsBelow | midicsv_compressor/src/main.rs:88-95 | every printed glyph is in 33..126, at least the code of pitch 24 and below the code of the scan's upper pitch |
| PianoRoll.StepSilent | midicsv_compressor/src/main.rs:86-101 | a step whose cells are all 0 prints no glyph; its text is only the newline after every fiftieth step |
| PianoRoll.StepGlyphsAscending | midicsv_compressor/src/main.rs:88-95 | the glyphs of a step are strictly ascending, following pitch order |
| PianoRoll.StepGlyphsMember | midicsv_compressor/src/main.rs:88-95 | an in-band pitch's glyph is printed at step x exactly when its cell is at least 1 |
| PianoRoll.StepTextDelimiters | midicsv_compressor/src/main.rs:96-101 | a step's text has one space exactly when it printed a glyph, and one newline exactly when x % 50 == 49 |
| PianoRoll.TextSpaces | midicsv_compressor/src/main.rs:86-103 | the text of n steps has one space per step that printed a glyph |
| PianoRoll.TextNewlines | midicsv_compressor/src/main.rs:99-101 | the text of n steps has n / 50 newlines, empty steps included |
| CaryDecoding.MarkedStep | midicsv_decompressor/src/main.rs:34-43 | one char: a space moves the cursor by one, a glyph sets its column in the cursor's row, any other char changes nothing |
| CaryDecoding.MarkedIff | midicsv_decompressor/src/main.rs:32-44 | cell (t, p) is set exactly when a char of column p occurs with exactly t spaces before it |
| CaryDecoding.MarkedMonotone | midicsv_decompressor/src/main.rs:39-41 | reading more text never clears a cell |
| CaryDecoding.MarkedAppend | midicsv_decompressor/src/main.rs:32-44 | reading b after a sets a's cells plus b's cells shifted down by a's spaces |
| CaryDecoding.NewlinesIgnored | midicsv_decompressor/src/main.rs:32-34 | removing line breaks changes neither the space count nor any cell |
| CaryDecoding.LastRowSilent | midicsv_decompressor/src/main.rs:35-45 | when no glyph follows the last space, the cursor's final row is empty |
| Decompressor.MidiDecompressor.constructor | midicsv_decompressor/src/main.rs:18-23 | the new decoder has an all-false grid and the cursor at 0 |
| Decompressor.MidiDecompressor.ReadLine | midicsv_decompressor/src/main.rs:34-43 | after one line's char loop, the cursor counts the spaces read so far and every cell is Marked by the text read so far |
| Decompressor.MidiDecompressor.LoadCompressedFile | midicsv_decompressor/src/main.rs:25-47 | whatever the old grid, the grid becomes exactly the cells the lines' chars mark, and the cursor is the number of spaces plus one |
| CaryDecoding.Edge | midicsv_decompressor/src/main.rs:68-82 | a cell gives one record exactly at a rising or falling edge: an on if the cell is set, an off otherwise |
| CaryDecoding.StepEventsShape | midicsv_decompressor/src/main.rs:67-83 | a row's records are notes on track 2 at the row's time, in strictly ascending note order |
| CaryDecoding.StepEventsMember | midicsv_decompressor/src/main.rs:67-83 | a row holds column p's on (off) exactly when p is scanned and rises (falls) there |
| CaryDecoding.EventsShape | midicsv_decompressor/src/main.rs:66-84 | all note records are on track 2, strictly ordered by time and then note, and earlier than `pointer_at * 40` |
| CaryDecoding.StepEventsOnlyEdges | midicsv_decompressor/src/main.rs:67-83 | every record of a row is the on (channel 1, velocity 127) of a rising edge or the off (velocity 0) of a falling edge of a scanned column, at the row's time |
| CaryDecoding.EventsOnlyEdges | midicsv_decompressor/src/main.rs:66-84 | the note records hold nothing else: each is the on of a rising edge or the off of a falling edge of some column below 87 at some step below the cursor |
| CaryDecoding.GridEvents | midicsv_decompressor/src/main.rs:66-84 | on the grid a text loads, column p's on (off) at row k is written exactly when the text sets (clears) cell (k, p) and the row before has it clear (set) |
| CaryDecoding.EventsMember | midicsv_decompressor/src/main.rs:66-84 | an on (off) for column p < 87 at a step is emitted exactly when the step is below the cursor and p rises (falls) there |
| CaryDecoding.StepNoteRecords | midicsv_decompressor/src/main.rs:67-83 | among a row's records, those of column p's note are exactly that cell's edge records |
| CaryDecoding.EventsAlternate | midicsv_decompressor/src/main.rs:66-84 | each note's records alternate on, off, on, ...; their number is odd exactly when the column sounds in the last row |
| CaryDecoding.EventsClosed | midicsv_decompressor/src/main.rs:66-84 | when a column is silent in the last row, every on of its note is directly followed by an off of the same note |
| CaryDecoding.DecodedNotesClosed | midicsv_decompressor/src/main.rs:25-88 | for a text with no glyph after its last space, every on record is closed by an off of the same note |
| CaryDecoding.OutputShape | midicsv_decompressor/src/main.rs:53-88 | the output is the fixed header, track-1 End_track at `pointer_at * 40`, the track-2 opening, the sorted note records only, track-2 End_track at `pointer_at * 40` and End_of_file |
| Decompressor.MidiDecompressor.CellRecords | midicsv_decompressor/src/main.rs:68-82 | the inner loop body writes the cell's edge records |
| Decompressor.MidiDecompressor.GenerateMidiCsv | midicsv_decompressor/src/main.rs:49-91 | the records written are Output of the grid and cursor |
| RoundTrip.StepTextMarks | midicsv_decompressor/src/main.rs:34-43 | decoding one step's text sets only its own row, in the column of each printed glyph |
| RoundTrip.TextMarksBelow | midicsv_decompressor/src/main.rs:34-43 | decoding the text of n steps sets no row at or past the number of its sounding steps |
| RoundTrip.TextRow | midicsv_decompressor/src/main.rs:32-44 | row SoundingSteps(x) of the decoded text is exactly what sounding step x printed |
| RoundTrip.RoundTripRow | midicsv_compressor/src/main.rs:86-103 | for a sounding step x and an in-band pitch y, the decoded row of x has y's glyph column set exactly when y sounds at x |
| RoundTrip.DecodeCursor | midicsv_decompressor/src/main.rs:35-36 | decoding an encoder text counts exactly its sounding steps before the final increment |
| RoundTrip.DecodeRow | midicsv_decompressor/src/main.rs:32-45 | decoding the lines of an encoder text recovers each sounding step's in-band pitches |
| RoundTrip.DecodeRowOnly | midicsv_decompressor/src/main.rs:34-43 | every column set in the decoded row of a sounding step x is the glyph column of a pitch y from 24 to 109 that sounds at x |
| RoundTrip.RoundTripNote | midicsv_decompressor/src/main.rs:66-84 | for an in-band pitch y whose column p is below 87, at the decoded row of sounding step x the on of p, MIDI note y - 1 + t with velocity 127, is written exactly when y sounds at x and p was clear in the row before; the off, velocity 0, exactly when y is silent at x and p was set before |
| Generator.Zeros | midi_ai_generator/src/main.rs:233-235 | `size` entries, all 0 |
| Generator.Set | midi_ai_generator/src/main.rs:237-239 | entry `index` becomes `val`, every other entry is kept, the length is unchanged |
| Generator.Concatenate | midi_ai_generator/src/main.rs:256-258 | length \|a\| + \|b\|, a's entries first, then b's |
| Generator.ConcatenateSplits | midi_ai_generator/src/main.rs:256-258 | splitting a concatenation at \|a\| gives a and b back |
| Generator.CharToOneHotCalculate | midi_ai_generator/src/main.rs:135-143 | succeeds exactly when the char's low byte is below 94; then 111 entries, 1 at that byte and 0 elsewhere |
| Generator.OneHotInjective | midi_ai_generator/src/main.rs:135-143 | two accepted chars get the same vector exactly when their low bytes agree |
| Generator.CaryGlyphsAccepted | midi_ai_generator/src/main.rs:136-139 | the space and glyphs `!` to `]` are accepted; glyphs `^` to `~` are rejected |
| Generator.OneHotSequenceFilters | midi_ai_generator/src/main.rs:120-122 | one vector per accepted char, in input order, each the calculation's result; rejected chars are dropped |
| Generator.CharToOneHot.constructor | midi_ai_generator/src/main.rs:123-125 | the cache starts empty |
| Generator.CharToOneHot.Convert | midi_ai_generator/src/main.rs:126-134 | the cached conversion equals the uncached calculation; the cache gains the char only on success, and a hit leaves it unchanged |
| Generator.CharToOneHot.StringToOneHot | midi_ai_generator/src/main.rs:120-122 | the vectors of the accepted chars in order; the cache gains exactly the accepted chars |
| Generator.Batchify | midi_ai_generator/src/main.rs:87-113 | n - 99 windows when n >= 100 vectors and none otherwise; window i is the vectors i to i + 99; the padding branch never runs; the converter's cache gains exactly the accepted chars |

## Left out

- File and directory I/O, output path formatting, `main`, and the error
  results of reading and writing are not modelled. The encoder takes
  already parsed lines and returns its twelve texts. The decoder takes the
  lines `reader.lines()` yields and returns records.
- Decimal formatting of records is not modelled. Records are a datatype.
- The midicsv line is taken with its fields already parsed as numbers, and
  its kind as an enumeration. A field that fails to parse makes the source
  panic (`unwrap`); that case is not representable here.
- PianoRoll.QuantumAfter: the quantum is an exact real, not f32. A tempo
  of 0 is excluded by `Safe`. In f32 it gives a NaN quantum for division
  0, +infinity for a positive division and -infinity for a negative one;
  in all three cases the source quantizes every later note to step 0. The `continue`
  taken when a Tempo field fails to parse is left out with the parsing.
- `Line.ticks` is a `nat`. The source parses field 1 as f32, so it also
  accepts negative or fractional tick fields, which the model cannot
  represent. midicsv never writes them.
- PianoRoll.Quantize: the quotient is exact, not f32. Tick counts too
  large for f32 precision are rounded in the source but not here.
- The Tempo branch needs six or more fields. midicsv writes Tempo records
  with four, so on midicsv input the quantum stays 40. The model keeps the
  source's test.
- Compressor.MidiProcessor.ProcessLine: requires the line not to panic.
  That means a channel below 128 for Program_c and note lines, a
  non-negative pitch for allowed note lines, a pitch below 110 when a cell
  is written or scanned, and a non-zero tempo. A close at step 0 never
  indexes the grid, so any pitch is allowed there, as in the source.
- PianoRoll.Sustain: cells are unbounded integers. The i32 overflow of a
  cell would need about 2^30 closes over one cell and is not modelled.
- Decompressor.MidiDecompressor.LoadCompressedFile: requires every glyph
  to be read while the cursor is below 20000. Otherwise the source panics
  on an out-of-bounds row.
- Decompressor.MidiDecompressor.GenerateMidiCsv: requires the cursor to be
  at most 20000. Otherwise the source panics reading row 20000.
- Generator.CharToOneHot.StringToOneHot: the source returns a lazy
  iterator. The model consumes it in full, which is how `batchify` uses it.
- Generator.Set: requires the index to be in range. The source panics
  otherwise.
- Vector entries are reals, not f32. Only 0.0 and 1.0 are ever stored.
- Generator.Batchify: the padding branch after the loop is proved
  unreachable, so the model has no padding code.
- The network (`Network`, `Layer`, `Node`, `dot`, the sigmoid, the loss
  functions and training) is left out. So is midi_ai_trainer: it is
  floating-point training with random initialisation and serialisation,
  and its text utilities repeat the generator's.
