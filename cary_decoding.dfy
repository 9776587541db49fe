/** The decoder of midicsv_decompressor as values: which cells scanning a
    Cary text sets, and the midicsv records emitted from a boolean grid.
    The class in module Decompressor realises these functions on arrays. */
module CaryDecoding {
  import opened Strings

  /** MULTI: midicsv ticks per time step. */
  const Multi: nat := 40
  /** PITCH_COUNT: pitch columns of the decoder's grid. */
  const PitchCount: nat := 116
  /** MAX_TIME_STEPS: rows of the decoder's grid. */
  const MaxTimeSteps: nat := 20000
  /** Only pitches below this one are turned into note events. */
  const EmittedPitches: nat := 87
  /** Pitch column p is MIDI note p + NoteOffset. */
  const NoteOffset: nat := 21

  // ---------------------------------------------------------------------
  // Loading

  /** The column a non-space char selects: `c as i32 - 32 - 1`. */
  function PitchOf(c: char): int { c as int - 32 - 1 }

  /** A char that sets a cell: not a space, and its column is in the grid. */
  predicate IsGlyph(c: char) { c != ' ' && 0 <= PitchOf(c) < PitchCount }

  /** Whether scanning `s` from an all-false grid with the cursor at 0 sets
      cell (t, p): some glyph of column p is read while the cursor, the
      number of spaces before it, is t. */
  function Marked(s: string, t: nat, p: nat): bool
    decreases |s|
  {
    if s == [] then false
    else
      var c := s[|s| - 1];
      Marked(s[..|s| - 1], t, p) || (IsGlyph(c) && PitchOf(c) == p && Count(s[..|s| - 1], ' ') == t)
  }

  /** Reading one more char: a glyph sets its column in the cursor's row,
      a space moves the cursor, anything else is ignored. */
  lemma MarkedStep(s: string, c: char)
    ensures Count(s + [c], ' ') == Count(s, ' ') + (if c == ' ' then 1 else 0)
    ensures forall t: nat, p: nat ::
      (Marked(s + [c], t, p) == (Marked(s, t, p) || (IsGlyph(c) && PitchOf(c) == p && Count(s, ' ') == t)))
  {
    assert (s + [c])[..|s|] == s;
  }

  /** Scanning `s` never indexes past the grid: every glyph is read while
      the cursor is still below MAX_TIME_STEPS. */
  predicate Fits(s: string)
  {
    forall i :: 0 <= i < |s| && IsGlyph(s[i]) ==> Count(s[..i], ' ') < MaxTimeSteps
  }

  /** A prefix of a text that fits fits too. */
  lemma FitsPrefix(s: string, u: string)
    requires Fits(s) && u <= s
    ensures Fits(u)
  {
    forall i | 0 <= i < |u| && IsGlyph(u[i]) ensures Count(u[..i], ' ') < MaxTimeSteps {
      assert u[..i] == s[..i] && u[i] == s[i];
    }
  }

  /** The grid loading leaves, row t and column p. */
  function Grid(s: string): (g: seq<seq<bool>>)
    ensures Rect(g) && |g| == MaxTimeSteps
  {
    seq(MaxTimeSteps, t requires 0 <= t => seq(PitchCount, p requires 0 <= p => Marked(s, t, p)))
  }

  /** A cell is set exactly when a glyph of its column occurs with exactly t
      spaces before it. */
  lemma {:induction false} MarkedIff(s: string, t: nat, p: nat)
    ensures Marked(s, t, p) <==>
      exists i :: 0 <= i < |s| && IsGlyph(s[i]) && PitchOf(s[i]) == p && Count(s[..i], ' ') == t
    decreases |s|
  {
    if s != [] {
      var s' := s[..|s| - 1];
      MarkedIff(s', t, p);
      if Marked(s', t, p) {
        var i :| 0 <= i < |s'| && IsGlyph(s'[i]) && PitchOf(s'[i]) == p && Count(s'[..i], ' ') == t;
        assert s[..i] == s'[..i];
        assert s[i] == s'[i];
      } else if IsGlyph(s[|s| - 1]) && PitchOf(s[|s| - 1]) == p && Count(s', ' ') == t {
        assert s[..|s| - 1] == s';
      } else {
        forall i | 0 <= i < |s| && IsGlyph(s[i]) && PitchOf(s[i]) == p
          ensures Count(s[..i], ' ') != t
        {
          if i < |s'| {
            assert s[..i] == s'[..i];
            assert s[i] == s'[i];
          }
        }
      }
    }
  }

  /** Reading more text never clears a cell. */
  lemma {:induction false} MarkedMonotone(s: string, u: string, t: nat, p: nat)
    requires Marked(s, t, p)
    ensures Marked(s + u, t, p)
    decreases |u|
  {
    if u == [] {
      assert s + u == s;
    } else {
      var u' := u[..|u| - 1];
      MarkedMonotone(s, u', t, p);
      assert (s + u)[..|s + u| - 1] == s + u';
    }
  }

  /** Loading is compositional: reading `b` after `a` sets what `a` sets,
      plus what `b` alone sets, shifted down by the spaces of `a`. */
  lemma {:induction false} MarkedAppend(a: string, b: string, t: nat, p: nat)
    ensures Marked(a + b, t, p) <==>
      Marked(a, t, p) || (t >= Count(a, ' ') && Marked(b, t - Count(a, ' '), p))
    decreases |b|
  {
    if b == [] {
      assert a + b == a;
    } else {
      var b' := b[..|b| - 1];
      MarkedAppend(a, b', t, p);
      assert (a + b)[..|a + b| - 1] == a + b';
      CountAppend(a, b', ' ');
    }
  }

  /** `s` without its newline chars. */
  function Strip(s: string): (r: string)
    ensures forall i :: 0 <= i < |r| ==> r[i] != '\n'
    decreases |s|
  {
    if s == [] then []
    else Strip(s[..|s| - 1]) + (if s[|s| - 1] == '\n' then [] else [s[|s| - 1]])
  }

  /** A newline neither moves the cursor nor sets a cell: scanning a text
      and scanning it with its line breaks removed load the same grid and
      count the same spaces. */
  lemma {:induction false} NewlinesIgnored(s: string, t: nat, p: nat)
    ensures Count(Strip(s), ' ') == Count(s, ' ')
    ensures Marked(Strip(s), t, p) == Marked(s, t, p)
    decreases |s|
  {
    if s != [] {
      var s' := s[..|s| - 1];
      var c := s[|s| - 1];
      NewlinesIgnored(s', t, p);
      if c == '\n' {
        assert Strip(s) == Strip(s');
      } else {
        var r := Strip(s');
        assert Strip(s) == r + [c];
        assert (r + [c])[..|r + [c]| - 1] == r;
        assert Count(r + [c], ' ') == Count(r, ' ') + (if c == ' ' then 1 else 0);
      }
    }
  }

  // ---------------------------------------------------------------------
  // Records

  /** The midicsv record kinds the decoder writes, with their parameters. */
  datatype Event =
    | Header(format: nat, tracks: nat, division: nat)
    | StartTrack
    | TimeSignature(numerator: nat, denominator: nat, clocks: nat, notated32nds: nat)
    | Tempo(microseconds: nat)
    | EndTrack
    | TextT(text: string)
    | TitleT(text: string)
    | NoteOn(channel: nat, note: nat, velocity: nat)
    | NoteOff(channel: nat, note: nat, velocity: nat)
    | EndOfFile

  /** One output line: track, time in ticks, event. */
  datatype Record = Record(track: nat, time: nat, event: Event)

  /** The eight records written before the notes; `end` is the length of
      the piece in ticks. */
  function Prologue(end: nat): (rs: seq<Record>)
    ensures |rs| == 8 && rs[4] == Record(1, end, EndTrack)
  {
    [ Record(0, 0, Header(1, 3, 384)),
      Record(1, 0, StartTrack),
      Record(1, 0, TimeSignature(4, 2, 24, 8)),
      Record(1, 0, Tempo(500000)),
      Record(1, end, EndTrack),
      Record(2, 0, StartTrack),
      Record(2, 0, TextT("Decompressed MIDI")),
      Record(2, 0, TitleT("Main Track")) ]
  }

  /** The two records written after the notes. */
  function Epilogue(end: nat): (rs: seq<Record>)
    ensures |rs| == 2 && rs[0] == Record(2, end, EndTrack) && rs[1].event == EndOfFile
  {
    [Record(2, end, EndTrack), Record(0, 0, EndOfFile)]
  }

  predicate IsNote(r: Record) { r.event.NoteOn? || r.event.NoteOff? }

  predicate IsNoteOf(r: Record, note: nat) { IsNote(r) && r.event.note == note }

  /** The note-on of column p at step `time`. */
  function OnRecord(time: nat, p: nat): Record
  {
    Record(2, time * Multi, NoteOn(1, p + NoteOffset, 127))
  }

  /** The note-off of column p at step `time`. */
  function OffRecord(time: nat, p: nat): Record
  {
    Record(2, time * Multi, NoteOff(1, p + NoteOffset, 0))
  }

  /** Every row has a cell per pitch column. */
  predicate Rect(g: seq<seq<bool>>)
  {
    forall t :: 0 <= t < |g| ==> |g[t]| == PitchCount
  }

  /** Cell (time - 1, p), or false at the first row. */
  function Previous(g: seq<seq<bool>>, time: nat, p: nat): bool
    requires Rect(g) && time < |g| && p < PitchCount
  {
    if time > 0 then g[time - 1][p] else false
  }

  /** Column p starts sounding at row `time`. */
  predicate Rises(g: seq<seq<bool>>, time: nat, p: nat)
    requires Rect(g) && time < |g| && p < PitchCount
  {
    g[time][p] && !Previous(g, time, p)
  }

  /** Column p stops sounding at row `time`. */
  predicate Falls(g: seq<seq<bool>>, time: nat, p: nat)
    requires Rect(g) && time < |g| && p < PitchCount
  {
    !g[time][p] && Previous(g, time, p)
  }

  /** The records of one cell: an on at a rising edge, an off at a falling
      edge, nothing otherwise. */
  function Edge(g: seq<seq<bool>>, time: nat, p: nat): (rs: seq<Record>)
    requires Rect(g) && time < |g| && p < PitchCount
    ensures |rs| <= 1
    ensures |rs| == 1 <==> Rises(g, time, p) || Falls(g, time, p)
    ensures forall i :: 0 <= i < |rs| ==>
      rs[i] == (if g[time][p] then OnRecord(time, p) else OffRecord(time, p))
  {
    var current := g[time][p];
    var previous := Previous(g, time, p);
    (if current && !previous then [OnRecord(time, p)] else [])
      + (if !current && previous then [OffRecord(time, p)] else [])
  }

  /** The records of row `time` for columns below hi, in column order. */
  function StepEvents(g: seq<seq<bool>>, time: nat, hi: nat): seq<Record>
    requires Rect(g) && time < |g| && hi <= EmittedPitches
    // g never changes between calls; putting it first keeps the verifier
    // from unrolling the recursion at the constant bound EmittedPitches
    decreases g, hi
  {
    if hi == 0 then [] else StepEvents(g, time, hi - 1) + Edge(g, time, hi - 1)
  }

  /** The note records of the first n rows. */
  function Events(g: seq<seq<bool>>, n: nat): seq<Record>
    requires Rect(g) && n <= |g|
    // g never changes between calls; putting it first keeps the verifier
    // from unrolling the recursion at the cursor bound
    decreases g, n
  {
    if n == 0 then [] else Events(g, n - 1) + StepEvents(g, n - 1, EmittedPitches)
  }

  /** The whole output of `generate_midi_csv` for a grid and a cursor. */
  function Output(g: seq<seq<bool>>, pointerAt: nat): seq<Record>
    requires Rect(g) && pointerAt <= |g|
  {
    Prologue(pointerAt * Multi) + Events(g, pointerAt) + Epilogue(pointerAt * Multi)
  }

  // ---------------------------------------------------------------------
  // Properties of the records

  /** `a` comes strictly before `b`: earlier, or at the same time with a
      lower note. */
  predicate Precedes(a: Record, b: Record)
  {
    IsNote(a) && IsNote(b) && (a.time < b.time || (a.time == b.time && a.event.note < b.event.note))
  }

  predicate Sorted(rs: seq<Record>)
  {
    forall i, j :: 0 <= i < j < |rs| ==> Precedes(rs[i], rs[j])
  }

  /** The records of a row are notes on track 2 at the row's time, with
      notes below NoteOffset + hi, in strictly ascending note order. */
  lemma {:induction false} StepEventsShape(g: seq<seq<bool>>, time: nat, hi: nat)
    requires Rect(g) && time < |g| && hi <= EmittedPitches
    ensures forall i :: 0 <= i < |StepEvents(g, time, hi)| ==>
      var r := StepEvents(g, time, hi)[i];
      r.track == 2 && r.time == time * Multi && IsNote(r) && NoteOffset <= r.event.note < NoteOffset + hi
    ensures Sorted(StepEvents(g, time, hi))
    decreases hi
  {
    if hi > 0 {
      StepEventsShape(g, time, hi - 1);
    }
  }

  /** A row's on (off) record of column p is there exactly at a rising
      (falling) edge. */
  lemma {:induction false} StepEventsMember(g: seq<seq<bool>>, time: nat, hi: nat, p: nat)
    requires Rect(g) && time < |g| && hi <= EmittedPitches && p < EmittedPitches
    ensures OnRecord(time, p) in StepEvents(g, time, hi) <==> p < hi && Rises(g, time, p)
    ensures OffRecord(time, p) in StepEvents(g, time, hi) <==> p < hi && Falls(g, time, p)
    decreases hi
  {
    if hi > 0 {
      var q := hi - 1;
      var s := StepEvents(g, time, q);
      var e := Edge(g, time, q);
      assert StepEvents(g, time, hi) == s + e;
      StepEventsMember(g, time, q, p);
      if p == q {
        StepEventsShape(g, time, q);
        assert OnRecord(time, p) !in s;
        assert OffRecord(time, p) !in s;
      } else {
        assert OnRecord(time, p) !in e && OffRecord(time, p) !in e;
      }
    }
  }

  /** The note records of n rows are on track 2, strictly ordered by time
      and then note, and all earlier than n * MULTI. */
  lemma {:induction false} EventsShape(g: seq<seq<bool>>, n: nat)
    requires Rect(g) && n <= |g|
    ensures forall i :: 0 <= i < |Events(g, n)| ==>
      Events(g, n)[i].track == 2 && IsNote(Events(g, n)[i]) && Events(g, n)[i].time < n * Multi
    ensures Sorted(Events(g, n))
    decreases n
  {
    if n > 0 {
      EventsShape(g, n - 1);
      StepEventsShape(g, n - 1, EmittedPitches);
      var e := Events(g, n - 1);
      var s := StepEvents(g, n - 1, EmittedPitches);
      assert Events(g, n) == e + s;
      forall i, j | 0 <= i < j < |e + s| ensures Precedes((e + s)[i], (e + s)[j]) {
        if j < |e| {
          assert (e + s)[i] == e[i] && (e + s)[j] == e[j];
        } else if i < |e| {
          assert (e + s)[i] == e[i] && (e + s)[j] == s[j - |e|];
        } else {
          assert (e + s)[i] == s[i - |e|] && (e + s)[j] == s[j - |e|];
        }
      }
    }
  }

  /** Record `r` is the on record of a rising edge or the off record of a
      falling edge of column p at row t. */
  predicate EdgeRecordOf(g: seq<seq<bool>>, t: nat, p: nat, r: Record)
    requires Rect(g) && t < |g| && p < PitchCount
  {
    (r == OnRecord(t, p) && Rises(g, t, p)) || (r == OffRecord(t, p) && Falls(g, t, p))
  }

  /** Record `r` is an edge record of row t, of some column below hi. */
  predicate RowEdgeRecord(g: seq<seq<bool>>, t: nat, hi: nat, r: Record)
    requires Rect(g) && t < |g| && hi <= PitchCount
  {
    exists p :: 0 <= p < hi && EdgeRecordOf(g, t, p, r)
  }

  /** Record `r` is an edge record of some row below n and column below 87. */
  predicate EdgeRecord(g: seq<seq<bool>>, n: nat, r: Record)
    requires Rect(g) && n <= |g|
  {
    exists t :: 0 <= t < n && RowEdgeRecord(g, t, EmittedPitches, r)
  }

  /** Every record of a row is the edge record of one of its columns below
      hi: channel 1, velocity 127 for an on and 0 for an off, time t * 40. */
  lemma {:induction false} StepEventsOnlyEdges(g: seq<seq<bool>>, time: nat, hi: nat)
    requires Rect(g) && time < |g| && hi <= EmittedPitches
    ensures forall i :: 0 <= i < |StepEvents(g, time, hi)| ==> RowEdgeRecord(g, time, hi, StepEvents(g, time, hi)[i])
    decreases hi
  {
    if hi > 0 {
      var q := hi - 1;
      var s := StepEvents(g, time, q);
      var e := Edge(g, time, q);
      var all := StepEvents(g, time, hi);
      StepEventsLast(g, time, hi, q);
      StepEventsOnlyEdges(g, time, q);
      forall i | 0 <= i < |all| ensures RowEdgeRecord(g, time, hi, all[i]) {
        if i < |s| {
          assert all[i] == s[i];
          var p :| 0 <= p < q && EdgeRecordOf(g, time, p, s[i]);
          assert p < hi;
        } else {
          assert all[i] == e[0];
          assert EdgeRecordOf(g, time, q, e[0]);
        }
      }
    } else {
      assert StepEvents(g, time, hi) == [];
    }
  }

  /** The note records of n rows hold nothing but edge records: each is the
      on of a rising edge or the off of a falling edge of some column below
      87 at some row below n. */
  lemma {:induction false} EventsOnlyEdges(g: seq<seq<bool>>, n: nat)
    requires Rect(g) && n <= |g|
    ensures forall i :: 0 <= i < |Events(g, n)| ==> EdgeRecord(g, n, Events(g, n)[i])
    decreases n
  {
    if n > 0 {
      var x := n - 1;
      var e := Events(g, x);
      var s := StepEvents(g, x, EmittedPitches);
      var all := Events(g, n);
      assert all == e + s;
      EventsOnlyEdges(g, x);
      StepEventsOnlyEdges(g, x, EmittedPitches);
      forall i | 0 <= i < |all| ensures EdgeRecord(g, n, all[i]) {
        if i < |e| {
          assert all[i] == e[i];
          var t :| 0 <= t < x && RowEdgeRecord(g, t, EmittedPitches, e[i]);
          assert t < n;
        } else {
          assert all[i] == s[i - |e|];
          assert RowEdgeRecord(g, x, EmittedPitches, s[i - |e|]);
        }
      }
    } else {
      assert Events(g, n) == [];
    }
  }

  /** A note-on for column p < 87 at step `time` is emitted exactly when the
      step is below n and column p rises there; a note-off exactly when it
      falls there. */
  lemma {:induction false} EventsMember(g: seq<seq<bool>>, n: nat, time: nat, p: nat)
    requires Rect(g) && n <= |g| && time < |g| && p < EmittedPitches
    ensures OnRecord(time, p) in Events(g, n) <==> time < n && Rises(g, time, p)
    ensures OffRecord(time, p) in Events(g, n) <==> time < n && Falls(g, time, p)
    decreases n
  {
    if n > 0 {
      var x := n - 1;
      var e := Events(g, x);
      var s := StepEvents(g, x, EmittedPitches);
      assert Events(g, n) == e + s;
      EventsMember(g, x, time, p);
      StepEventsShape(g, x, EmittedPitches);
      if time == x {
        EventsShape(g, x);
        assert OnRecord(time, p) !in e;
        assert OffRecord(time, p) !in e;
        StepEventsMember(g, x, EmittedPitches, p);
      } else {
        assert OnRecord(time, p) !in s;
        assert OffRecord(time, p) !in s;
      }
    } else {
      assert Events(g, n) == [];
    }
  }

  /** EventsMember on the grid a text loads: the on (off) of column p at
      row k is written exactly when the text sets (clears) cell (k, p) and
      the row before has it clear (set). */
  lemma GridEvents(s: string, n: nat, k: nat, p: nat)
    requires k < n <= MaxTimeSteps && p < EmittedPitches
    ensures OnRecord(k, p) in Events(Grid(s), n) <==> Marked(s, k, p) && !Previous(Grid(s), k, p)
    ensures OffRecord(k, p) in Events(Grid(s), n) <==> !Marked(s, k, p) && Previous(Grid(s), k, p)
  {
    var g := Grid(s);
    assert g[k][p] == Marked(s, k, p);
    EventsMember(g, n, k, p);
  }

  /** The records of `rs` for one note, in order. */
  function NoteRecords(rs: seq<Record>, note: nat): (f: seq<Record>)
    ensures |f| <= |rs|
    ensures forall i :: 0 <= i < |f| ==> IsNoteOf(f[i], note)
    decreases |rs|
  {
    if rs == [] then []
    else NoteRecords(rs[..|rs| - 1], note) + (if IsNoteOf(rs[|rs| - 1], note) then [rs[|rs| - 1]] else [])
  }

  lemma {:induction false} NoteRecordsAppend(a: seq<Record>, b: seq<Record>, note: nat)
    ensures NoteRecords(a + b, note) == NoteRecords(a, note) + NoteRecords(b, note)
    decreases |b|
  {
    if b == [] {
      assert a + b == a;
    } else {
      var b' := b[..|b| - 1];
      assert (a + b)[..|a + b| - 1] == a + b';
      NoteRecordsAppend(a, b', note);
    }
  }

  /** The records of one note among a cell's edge records. */
  lemma EdgeNoteRecords(g: seq<seq<bool>>, time: nat, q: nat, note: nat)
    requires Rect(g) && time < |g| && q < PitchCount
    ensures NoteRecords(Edge(g, time, q), note) == if note == q + NoteOffset then Edge(g, time, q) else []
  {
    var e := Edge(g, time, q);
    if |e| == 1 {
      assert e[..0] == [];
    }
  }

  /** A sequence with no record of a note filters to nothing. */
  lemma {:induction false} NoteRecordsAbsent(rs: seq<Record>, note: nat)
    requires forall i :: 0 <= i < |rs| ==> !IsNoteOf(rs[i], note)
    ensures NoteRecords(rs, note) == []
    decreases |rs|
  {
    if rs != [] {
      NoteRecordsAbsent(rs[..|rs| - 1], note);
    }
  }

  /** A row's records below column p hold no record of p's note. */
  lemma StepNoteRecordsNone(g: seq<seq<bool>>, time: nat, hi: nat, p: nat)
    requires Rect(g) && time < |g| && hi <= p < EmittedPitches
    ensures NoteRecords(StepEvents(g, time, hi), p + NoteOffset) == []
  {
    StepEventsShape(g, time, hi);
    NoteRecordsAbsent(StepEvents(g, time, hi), p + NoteOffset);
  }

  /** A row's records up to column q = p + 1 end with the edge records of
      cell p. */
  lemma StepEventsLast(g: seq<seq<bool>>, time: nat, q: nat, p: nat)
    requires Rect(g) && time < |g| && q == p + 1 && q <= EmittedPitches
    ensures StepEvents(g, time, q) == StepEvents(g, time, p) + Edge(g, time, p)
  {
  }

  /** The records of the last column scanned, among a row's records: the
      cell's edge records. */
  lemma StepNoteRecordsLast(g: seq<seq<bool>>, time: nat, p: nat)
    requires Rect(g) && time < |g| && p < EmittedPitches
    ensures NoteRecords(StepEvents(g, time, p + 1), p + NoteOffset) == Edge(g, time, p)
  {
    StepEventsLast(g, time, p + 1, p);
    StepNoteRecordsNone(g, time, p, p);
    EdgeNoteRecords(g, time, p, p + NoteOffset);
    NoteRecordsJoinRight(StepEvents(g, time, p + 1), StepEvents(g, time, p), Edge(g, time, p), p + NoteOffset);
  }

  /** Scanning column r after p, which takes the records up to column
      q = r + 1, adds no record of p's note. */
  lemma StepNoteRecordsLater(g: seq<seq<bool>>, time: nat, q: nat, r: nat, p: nat)
    requires Rect(g) && time < |g| && q == r + 1 && p < r && q <= EmittedPitches
    ensures NoteRecords(StepEvents(g, time, q), p + NoteOffset) == NoteRecords(StepEvents(g, time, r), p + NoteOffset)
  {
    StepEventsLast(g, time, q, r);
    EdgeNoteRecords(g, time, r, p + NoteOffset);
    NoteRecordsJoinLeft(StepEvents(g, time, q), StepEvents(g, time, r), Edge(g, time, r), p + NoteOffset);
  }

  /** In a row's records, those of column p are the cell's edge records. */
  lemma {:induction false} StepNoteRecords(g: seq<seq<bool>>, time: nat, hi: nat, p: nat)
    requires Rect(g) && time < |g| && p < hi <= EmittedPitches
    ensures NoteRecords(StepEvents(g, time, hi), p + NoteOffset) == Edge(g, time, p)
    decreases hi
  {
    if hi == p + 1 {
      StepNoteRecordsLast(g, time, p);
    } else {
      StepNoteRecords(g, time, hi - 1, p);
      StepNoteRecordsLater(g, time, hi, hi - 1, p);
    }
  }

  /** When the second part of a join has no record of a note, the join's
      records of that note are the first part's. */
  lemma NoteRecordsJoinLeft(full: seq<Record>, s: seq<Record>, e: seq<Record>, note: nat)
    requires full == s + e && NoteRecords(e, note) == []
    ensures NoteRecords(full, note) == NoteRecords(s, note)
  {
    NoteRecordsAppend(s, e, note);
    assert NoteRecords(s, note) + [] == NoteRecords(s, note);
  }

  /** When the first part of a join has no record of a note, the join's
      records of that note are the second part's. */
  lemma NoteRecordsJoinRight(full: seq<Record>, s: seq<Record>, e: seq<Record>, note: nat)
    requires full == s + e && NoteRecords(s, note) == []
    ensures NoteRecords(full, note) == NoteRecords(e, note)
  {
    NoteRecordsAppend(s, e, note);
    assert [] + NoteRecords(e, note) == NoteRecords(e, note);
  }

  /** On and off records alternate, starting with an on. */
  predicate Alternates(rs: seq<Record>)
  {
    forall i :: 0 <= i < |rs| ==> (rs[i].event.NoteOn? <==> i % 2 == 0)
  }

  /** Appending one edge keeps alternation when it is an on after an even
      number of records or an off after an odd number. */
  lemma AlternatesAppend(f: seq<Record>, e: seq<Record>)
    requires Alternates(f) && |e| <= 1
    requires |e| == 1 ==> (e[0].event.NoteOn? <==> |f| % 2 == 0)
    ensures Alternates(f + e)
  {
    forall i | 0 <= i < |f + e| ensures ((f + e)[i].event.NoteOn? <==> i % 2 == 0) {
      if i < |f| {
        assert (f + e)[i] == f[i];
      }
    }
  }

  /** A column's records so far alternate and their count is odd exactly
      when the column sounded in the previous row: adding the cell's edge
      records keeps alternation, and the count is then odd exactly when the
      column sounds in this row. */
  lemma AlternatesEdge(g: seq<seq<bool>>, x: nat, p: nat, fe: seq<Record>)
    requires Rect(g) && x < |g| && p < PitchCount
    requires Alternates(fe) && (|fe| % 2 == 1 <==> Previous(g, x, p))
    ensures Alternates(fe + Edge(g, x, p))
    ensures |fe + Edge(g, x, p)| % 2 == 1 <==> g[x][p]
  {
    var edge := Edge(g, x, p);
    AlternatesAppend(fe, edge);
    if g[x][p] == Previous(g, x, p) {
      assert |edge| == 0 && |fe + edge| == |fe|;
    } else {
      assert |edge| == 1 && |fe + edge| == |fe| + 1;
    }
  }

  /** For each emitted column, its records alternate on, off, on, ...; there
      is an odd number of them exactly when the column sounds in the last
      row read. */
  lemma {:induction false} EventsAlternate(g: seq<seq<bool>>, n: nat, p: nat)
    requires Rect(g) && n <= |g| && p < EmittedPitches
    ensures Alternates(NoteRecords(Events(g, n), p + NoteOffset))
    ensures |NoteRecords(Events(g, n), p + NoteOffset)| % 2 == 1 <==> n > 0 && g[n - 1][p]
    decreases n
  {
    if n > 0 {
      var x := n - 1;
      var e := Events(g, x);
      var s := StepEvents(g, x, EmittedPitches);
      assert Events(g, n) == e + s;
      EventsAlternate(g, x, p);
      NoteRecordsAppend(e, s, p + NoteOffset);
      StepNoteRecords(g, x, EmittedPitches, p);
      var fe := NoteRecords(e, p + NoteOffset);
      assert NoteRecords(Events(g, n), p + NoteOffset) == fe + Edge(g, x, p);
      AlternatesEdge(g, x, p, fe);
    } else {
      assert Events(g, n) == [];
    }
  }

  /** Every on record is directly followed by an off record of its note. */
  predicate EveryOnClosed(f: seq<Record>)
  {
    forall i :: 0 <= i < |f| && f[i].event.NoteOn? ==>
      i + 1 < |f| && f[i + 1].event.NoteOff? && f[i + 1].event.note == f[i].event.note
  }

  /** Alternating records of one note, even in number, pair every on with
      the off right after it. */
  lemma AlternatesClosed(f: seq<Record>, note: nat)
    requires Alternates(f) && |f| % 2 == 0
    requires forall i :: 0 <= i < |f| ==> IsNoteOf(f[i], note)
    ensures EveryOnClosed(f)
  {
    forall i | 0 <= i < |f| && f[i].event.NoteOn?
      ensures i + 1 < |f| && f[i + 1].event.NoteOff? && f[i + 1].event.note == f[i].event.note
    {
      assert IsNoteOf(f[i], note) && IsNoteOf(f[i + 1], note);
    }
  }

  /** When column p is silent in the last row read, every on record of that
      note is followed by an off record of the same note. */
  lemma EventsClosed(g: seq<seq<bool>>, n: nat, p: nat)
    requires Rect(g) && 0 < n <= |g| && p < EmittedPitches && !g[n - 1][p]
    ensures EveryOnClosed(NoteRecords(Events(g, n), p + NoteOffset))
  {
    EventsAlternate(g, n, p);
    AlternatesClosed(NoteRecords(Events(g, n), p + NoteOffset), p + NoteOffset);
  }

  /** The whole output: the header and the first track, the second track's
      opening, then note records only (on track 2, strictly ordered, all
      before the end time), then the second track's end at `pointerAt * 40`
      and the end of the file. */
  lemma OutputShape(g: seq<seq<bool>>, pointerAt: nat)
    requires Rect(g) && pointerAt <= |g|
    ensures var o := Output(g, pointerAt);
      && |o| == 10 + |Events(g, pointerAt)|
      && o[0].event == Header(1, 3, 384) && o[4] == Record(1, pointerAt * Multi, EndTrack)
      && o[|o| - 2] == Record(2, pointerAt * Multi, EndTrack) && o[|o| - 1].event == EndOfFile
      && o[8..|o| - 2] == Events(g, pointerAt)
      && (forall i :: 8 <= i < |o| - 2 ==> o[i].track == 2 && IsNote(o[i]) && o[i].time < pointerAt * Multi)
      && Sorted(o[8..|o| - 2])
  {
    var o := Output(g, pointerAt);
    var e := Events(g, pointerAt);
    EventsShape(g, pointerAt);
    assert o[8..|o| - 2] == e;
    forall i | 8 <= i < |o| - 2 ensures o[i].track == 2 && IsNote(o[i]) && o[i].time < pointerAt * Multi {
      assert o[i] == e[i - 8];
    }
  }

  /** When no glyph of the text follows its last space, the row the cursor
      ends on is empty. */
  lemma LastRowSilent(s: string, p: nat)
    requires forall i :: 0 <= i < |s| && IsGlyph(s[i]) ==> Count(s[..i], ' ') < Count(s, ' ')
    ensures !Marked(s, Count(s, ' '), p)
  {
    MarkedIff(s, Count(s, ' '), p);
  }

  /** Decoding a text of fewer than 20000 spaces with no glyph after its last
      space: for every emitted column, each on record is directly followed
      by an off record of the same note. */
  lemma DecodedNotesClosed(s: string, p: nat)
    requires Count(s, ' ') < MaxTimeSteps && p < EmittedPitches
    requires forall i :: 0 <= i < |s| && IsGlyph(s[i]) ==> Count(s[..i], ' ') < Count(s, ' ')
    ensures EveryOnClosed(NoteRecords(Events(Grid(s), Count(s, ' ') + 1), p + NoteOffset))
  {
    LastRowSilent(s, p);
    EventsClosed(Grid(s), Count(s, ' ') + 1, p);
  }
}
