/** What the decoder recovers from the encoder's text: every step that
    printed a glyph becomes one row, in order, silent steps vanish, and a
    pitch's cell is recovered exactly in its glyph's column. */
module RoundTrip {
  import opened Strings
  import PianoRoll
  import CaryDecoding

  /** A string of glyphs without spaces sets cells only in row 0, one per
      glyph char. */
  lemma GlyphsMarks(g: string, j: nat, p: nat)
    requires forall i :: 0 <= i < |g| ==> CaryDecoding.IsGlyph(g[i])
    requires p < CaryDecoding.PitchCount
    ensures CaryDecoding.Marked(g, j, p) <==> j == 0 && (p + 33) as char in g
  {
    CaryDecoding.MarkedIff(g, j, p);
    forall i | 0 <= i <= |g| ensures Count(g[..i], ' ') == 0 {
      CountAbsent(g[..i], ' ');
    }
    if j == 0 && (p + 33) as char in g {
      var i :| 0 <= i < |g| && g[i] == (p + 33) as char;
      assert CaryDecoding.PitchOf(g[i]) == p && Count(g[..i], ' ') == 0;
    }
  }

  /** A one-char string that is not a glyph sets nothing. */
  lemma NonGlyphMarksNothing(c: char, j: nat, p: nat)
    requires !CaryDecoding.IsGlyph(c)
    ensures !CaryDecoding.Marked([c], j, p)
  {
    assert [c][..0] == [];
  }

  /** The text of one step sets cells only in its own row 0: column p
      exactly when the glyph p + 33 was printed. */
  lemma StepTextMarks(cols: seq<seq<int>>, x: nat, t: int, j: nat, p: nat)
    requires PianoRoll.Shaped(cols) && x < PianoRoll.Steps && p < CaryDecoding.PitchCount
    ensures CaryDecoding.Marked(PianoRoll.StepText(cols, x, t), j, p) <==>
      j == 0 && (p + 33) as char in PianoRoll.StepGlyphs(cols, x, PianoRoll.PitchCount, t)
  {
    var g := PianoRoll.StepGlyphs(cols, x, PianoRoll.PitchCount, t);
    PianoRoll.StepGlyphsBelow(cols, x, PianoRoll.PitchCount, t);
    var sp: string := if g != [] then " " else "";
    var nl: string := if x % PianoRoll.LineSteps == PianoRoll.LineSteps - 1 then "\n" else "";
    assert PianoRoll.StepText(cols, x, t) == g + sp + nl;
    GlyphsMarks(g, j, p);
    CaryDecoding.MarkedAppend(g, sp, j, p);
    CaryDecoding.MarkedAppend(g + sp, nl, j, p);
    if sp != [] && j >= Count(g, ' ') {
      NonGlyphMarksNothing(' ', j - Count(g, ' '), p);
    }
    if nl != [] && j >= Count(g + sp, ' ') {
      NonGlyphMarksNothing('\n', j - Count(g + sp, ' '), p);
    }
  }

  /** More steps never have fewer sounding steps. */
  lemma {:induction false} SoundingMonotone(cols: seq<seq<int>>, x: nat, n: nat, t: int)
    requires PianoRoll.Shaped(cols) && x <= n <= PianoRoll.Steps
    ensures PianoRoll.SoundingSteps(cols, x, t) <= PianoRoll.SoundingSteps(cols, n, t)
    decreases n
  {
    if x < n {
      SoundingMonotone(cols, x, n - 1, t);
    }
  }

  /** The text of n steps sets cells only in rows below the number of its
      sounding steps. */
  lemma {:induction false} TextMarksBelow(cols: seq<seq<int>>, n: nat, t: int, j: nat, p: nat)
    requires PianoRoll.Shaped(cols) && n <= PianoRoll.Steps && p < CaryDecoding.PitchCount
    requires CaryDecoding.Marked(PianoRoll.Text(cols, n, t), j, p)
    ensures j < PianoRoll.SoundingSteps(cols, n, t)
    decreases n
  {
    var x := n - 1;
    var before := PianoRoll.Text(cols, x, t);
    assert PianoRoll.Text(cols, n, t) == before + PianoRoll.StepText(cols, x, t);
    PianoRoll.TextSpaces(cols, x, t);
    CaryDecoding.MarkedAppend(before, PianoRoll.StepText(cols, x, t), j, p);
    if CaryDecoding.Marked(before, j, p) {
      TextMarksBelow(cols, x, t, j, p);
    } else {
      StepTextMarks(cols, x, t, j - Count(before, ' '), p);
    }
  }

  /** Appending step n - 1 leaves the rows below the sounding steps of
      the first n - 1 steps as they were. */
  lemma TextKeepsRows(cols: seq<seq<int>>, n: nat, t: int, j: nat, p: nat)
    requires PianoRoll.Shaped(cols) && 0 < n <= PianoRoll.Steps && p < CaryDecoding.PitchCount
    requires j < PianoRoll.SoundingSteps(cols, n - 1, t)
    ensures CaryDecoding.Marked(PianoRoll.Text(cols, n, t), j, p) <==> CaryDecoding.Marked(PianoRoll.Text(cols, n - 1, t), j, p)
  {
    var before := PianoRoll.Text(cols, n - 1, t);
    var step := PianoRoll.StepText(cols, n - 1, t);
    assert PianoRoll.Text(cols, n, t) == before + step;
    PianoRoll.TextSpaces(cols, n - 1, t);
    CaryDecoding.MarkedAppend(before, step, j, p);
  }

  /** Appending steps m to n - 1 leaves the rows below the sounding steps
      of the first m steps as they were. */
  lemma {:induction false} TextKeepsRowsFrom(cols: seq<seq<int>>, m: nat, n: nat, t: int, j: nat, p: nat)
    requires PianoRoll.Shaped(cols) && m <= n <= PianoRoll.Steps && p < CaryDecoding.PitchCount
    requires j < PianoRoll.SoundingSteps(cols, m, t)
    ensures CaryDecoding.Marked(PianoRoll.Text(cols, n, t), j, p) <==> CaryDecoding.Marked(PianoRoll.Text(cols, m, t), j, p)
    decreases n
  {
    if m < n {
      TextKeepsRowsFrom(cols, m, n - 1, t, j, p);
      SoundingMonotone(cols, m, n - 1, t);
      TextKeepsRows(cols, n, t, j, p);
    }
  }

  /** Row SoundingSteps(x) of the text of the first x + 1 steps holds what
      step x printed. */
  lemma TextLastRow(cols: seq<seq<int>>, t: int, x: nat, p: nat)
    requires PianoRoll.Shaped(cols) && x < PianoRoll.Steps && p < CaryDecoding.PitchCount
    ensures CaryDecoding.Marked(PianoRoll.Text(cols, x + 1, t), PianoRoll.SoundingSteps(cols, x, t), p) <==>
      CaryDecoding.Marked(PianoRoll.StepText(cols, x, t), 0, p)
  {
    var k := PianoRoll.SoundingSteps(cols, x, t);
    var before := PianoRoll.Text(cols, x, t);
    var step := PianoRoll.StepText(cols, x, t);
    assert PianoRoll.Text(cols, x + 1, t) == before + step;
    PianoRoll.TextSpaces(cols, x, t);
    CaryDecoding.MarkedAppend(before, step, k, p);
    if CaryDecoding.Marked(before, k, p) {
      TextMarksBelow(cols, x, t, k, p);
    }
  }

  /** Row SoundingSteps(x) of the text of n > x steps holds exactly what
      step x printed, when step x sounds. */
  lemma TextRow(cols: seq<seq<int>>, t: int, x: nat, n: nat, p: nat)
    requires PianoRoll.Shaped(cols) && x < n <= PianoRoll.Steps && p < CaryDecoding.PitchCount
    requires PianoRoll.StepGlyphs(cols, x, PianoRoll.PitchCount, t) != []
    ensures CaryDecoding.Marked(PianoRoll.Text(cols, n, t), PianoRoll.SoundingSteps(cols, x, t), p) <==>
      CaryDecoding.Marked(PianoRoll.StepText(cols, x, t), 0, p)
  {
    var k := PianoRoll.SoundingSteps(cols, x, t);
    TextLastRow(cols, t, x, p);
    assert PianoRoll.SoundingSteps(cols, x + 1, t) == k + 1;
    TextKeepsRowsFrom(cols, x + 1, n, t, k, p);
  }

  /** The round trip at transposition t: for a step x that printed a glyph,
      row SoundingSteps(x) of the decoded text has the column of pitch y's
      glyph set exactly when pitch y sounds at step x, for every pitch whose
      glyph is in band. */
  lemma RoundTripRow(cols: seq<seq<int>>, t: int, x: nat, y: int)
    requires PianoRoll.Shaped(cols) && x < PianoRoll.Steps
    requires PianoRoll.StepGlyphs(cols, x, PianoRoll.PitchCount, t) != []
    requires PianoRoll.PitchFloor <= y < PianoRoll.PitchCount && PianoRoll.InBand(PianoRoll.GlyphCode(y, t))
    ensures CaryDecoding.Marked(PianoRoll.Cary(cols, t), PianoRoll.SoundingSteps(cols, x, t), PianoRoll.GlyphCode(y, t) - 33)
      <==> cols[y][x] >= 1
  {
    var p := PianoRoll.GlyphCode(y, t) - 33;
    TextRow(cols, t, x, PianoRoll.Steps, p);
    StepTextMarks(cols, x, t, 0, p);
    PianoRoll.StepGlyphsMember(cols, x, PianoRoll.PitchCount, t, y);
  }

  /** Decoding the lines of the text written at transposition t leaves the
      cursor (before its final step) at the number of steps that printed a
      glyph. */
  lemma DecodeCursor(cols: seq<seq<int>>, t: int, lines: seq<string>)
    requires PianoRoll.Shaped(cols) && Flatten(lines) == CaryDecoding.Strip(PianoRoll.Cary(cols, t))
    ensures Count(Flatten(lines), ' ') == PianoRoll.SoundingSteps(cols, PianoRoll.Steps, t)
  {
    PianoRoll.TextSpaces(cols, PianoRoll.Steps, t);
    CaryDecoding.NewlinesIgnored(PianoRoll.Cary(cols, t), 0, 0);
  }

  /** Decoding the lines of the text written at transposition t recovers
      each sounding step's pitches in its row. */
  lemma DecodeRow(cols: seq<seq<int>>, t: int, lines: seq<string>, x: nat, y: int)
    requires PianoRoll.Shaped(cols) && Flatten(lines) == CaryDecoding.Strip(PianoRoll.Cary(cols, t))
    requires x < PianoRoll.Steps && PianoRoll.StepGlyphs(cols, x, PianoRoll.PitchCount, t) != []
    requires PianoRoll.PitchFloor <= y < PianoRoll.PitchCount && PianoRoll.InBand(PianoRoll.GlyphCode(y, t))
    ensures CaryDecoding.Marked(Flatten(lines), PianoRoll.SoundingSteps(cols, x, t), PianoRoll.GlyphCode(y, t) - 33)
      <==> cols[y][x] >= 1
  {
    var k := PianoRoll.SoundingSteps(cols, x, t);
    var p := PianoRoll.GlyphCode(y, t) - 33;
    CaryDecoding.NewlinesIgnored(PianoRoll.Cary(cols, t), k, p);
    RoundTripRow(cols, t, x, y);
  }

  /** Conversely, every column set in the decoded row of a sounding step x
      is the glyph column of a pitch y from 24 to 109 that sounds at x: the
      decoder recovers nothing the encoder did not print. */
  lemma DecodeRowOnly(cols: seq<seq<int>>, t: int, lines: seq<string>, x: nat, p: nat)
    requires PianoRoll.Shaped(cols) && Flatten(lines) == CaryDecoding.Strip(PianoRoll.Cary(cols, t))
    requires x < PianoRoll.Steps && PianoRoll.StepGlyphs(cols, x, PianoRoll.PitchCount, t) != []
    requires p < CaryDecoding.PitchCount
    requires CaryDecoding.Marked(Flatten(lines), PianoRoll.SoundingSteps(cols, x, t), p)
    ensures var y := p + PianoRoll.MinimumPitch - t;
      && PianoRoll.PitchFloor <= y < PianoRoll.PitchCount
      && PianoRoll.GlyphCode(y, t) - 33 == p && PianoRoll.InBand(PianoRoll.GlyphCode(y, t))
      && cols[y][x] >= 1
  {
    var k := PianoRoll.SoundingSteps(cols, x, t);
    var g := PianoRoll.StepGlyphs(cols, x, PianoRoll.PitchCount, t);
    var y := p + PianoRoll.MinimumPitch - t;
    CaryDecoding.NewlinesIgnored(PianoRoll.Cary(cols, t), k, p);
    TextRow(cols, t, x, PianoRoll.Steps, p);
    StepTextMarks(cols, x, t, 0, p);
    assert (p + 33) as char in g;
    PianoRoll.StepGlyphsBelow(cols, x, PianoRoll.PitchCount, t);
    assert PianoRoll.GlyphCode(y, t) == p + 33;
    PianoRoll.StepGlyphsMember(cols, x, PianoRoll.PitchCount, t, y);
  }

  /** What the decoder writes for a pitch y whose glyph column p is below
      87: at the time of row k, the decoded row of a sounding step x, the
      note-on of p, which is MIDI note y - 1 + t, is written exactly when y
      sounds at x and column p was clear in the row before; its note-off
      exactly when y is silent at x and column p was set in the row before. */
  lemma RoundTripNote(cols: seq<seq<int>>, t: int, lines: seq<string>, x: nat, y: int, k: nat, p: nat, n: nat)
    requires PianoRoll.Shaped(cols) && Flatten(lines) == CaryDecoding.Strip(PianoRoll.Cary(cols, t))
    requires x < PianoRoll.Steps && PianoRoll.StepGlyphs(cols, x, PianoRoll.PitchCount, t) != []
    requires PianoRoll.PitchFloor <= y < PianoRoll.PitchCount && PianoRoll.InBand(PianoRoll.GlyphCode(y, t))
    requires k == PianoRoll.SoundingSteps(cols, x, t) && p == PianoRoll.GlyphCode(y, t) - 33
    requires p < CaryDecoding.EmittedPitches && k < n <= CaryDecoding.MaxTimeSteps
    ensures CaryDecoding.OnRecord(k, p) in CaryDecoding.Events(CaryDecoding.Grid(Flatten(lines)), n) <==>
      cols[y][x] >= 1 && !CaryDecoding.Previous(CaryDecoding.Grid(Flatten(lines)), k, p)
    ensures CaryDecoding.OffRecord(k, p) in CaryDecoding.Events(CaryDecoding.Grid(Flatten(lines)), n) <==>
      cols[y][x] < 1 && CaryDecoding.Previous(CaryDecoding.Grid(Flatten(lines)), k, p)
    ensures CaryDecoding.OnRecord(k, p).event == CaryDecoding.NoteOn(1, y - 1 + t, 127)
    ensures CaryDecoding.OffRecord(k, p).event == CaryDecoding.NoteOff(1, y - 1 + t, 0)
  {
    DecodeRow(cols, t, lines, x, y);
    CaryDecoding.GridEvents(Flatten(lines), n, k, p);
  }
}
