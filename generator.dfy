/** The text-handling utilities of midi_ai_generator: vectors as far as
    their shape goes, the Cary-char to one-hot mapping with its cache, and
    the sliding windows `batchify` cuts from a text. */
module Generator {

  datatype Result<T> = Ok(value: T) | Err(error: string)

  /** Rust's u8. */
  newtype u8 = x: int | 0 <= x < 256

  /** ONE_HOT_VEC_SIZE. */
  const OneHotSize: u8 := 111
  /** Chars whose low byte is below this are accepted. */
  const AcceptedBytes: u8 := 94
  /** WINDOW_SIZE and MIN_WINDOW_SIZE. */
  const WindowSize: nat := 100
  const MinWindowSize: nat := 100
  /** WINDOW_STEP. */
  const WindowStep: nat := 1

  /** A `Vector` of f32 values, here as reals. */
  type Vector = seq<real>

  // ---------------------------------------------------------------------
  // Vector

  /** `Vector::zeros`: `size` zeros. */
  function Zeros(size: u8): (v: Vector)
    ensures |v| == size as int
    ensures forall i :: 0 <= i < |v| ==> v[i] == 0.0
  {
    seq(size as int, _ => 0.0)
  }

  /** `Vector::set`: entry `index` becomes `val`; an index past the end
      panics in the source, so it is required to be in range. */
  function Set(v: Vector, index: u8, val: real): (w: Vector)
    requires (index as int) < |v|
    ensures |w| == |v| && w[index] == val
    ensures forall i :: 0 <= i < |v| && i != index as int ==> w[i] == v[i]
  {
    v[index := val]
  }

  /** `Vector::concatenate`: the entries of `a`, then those of `b`. */
  function Concatenate(a: Vector, b: Vector): (r: Vector)
    ensures |r| == |a| + |b|
    ensures forall i :: 0 <= i < |a| ==> r[i] == a[i]
    ensures forall j :: 0 <= j < |b| ==> r[|a| + j] == b[j]
  {
    a + b
  }

  /** Splitting a concatenation at the length of its first part gives the
      two parts back. */
  lemma ConcatenateSplits(a: Vector, b: Vector)
    ensures Concatenate(a, b)[..|a|] == a && Concatenate(a, b)[|a|..] == b
  {
    var r := Concatenate(a, b);
    assert forall i :: 0 <= i < |a| ==> r[..|a|][i] == a[i];
    assert forall j :: 0 <= j < |b| ==> r[|a|..][j] == b[j];
  }

  // ---------------------------------------------------------------------
  // One-hot encoding

  /** `c as u8`: the low eight bits of the code point. */
  function Byte(c: char): u8
  {
    ((c as int) % 256) as u8
  }

  /** `char_to_one_hot_calculate`: the one-hot vector of `c as u8`, or an
      error when that byte is 94 or more. */
  function CharToOneHotCalculate(c: char): (r: Result<Vector>)
    ensures r.Ok? <==> Byte(c) < AcceptedBytes
    ensures r.Ok? ==> |r.value| == OneHotSize as int
    ensures r.Ok? ==> forall i :: 0 <= i < |r.value| ==> r.value[i] == if i == Byte(c) as int then 1.0 else 0.0
  {
    var base := Byte(c);
    if !(0 <= base < AcceptedBytes) then Err("Invalid character for Cary format")
    else Ok(Set(Zeros(OneHotSize), base, 1.0))
  }

  /** Two accepted chars get the same vector exactly when their low bytes
      agree: the encoding forgets nothing but the high bits. */
  lemma OneHotInjective(c: char, d: char)
    requires Byte(c) < AcceptedBytes && Byte(d) < AcceptedBytes
    ensures CharToOneHotCalculate(c) == CharToOneHotCalculate(d) <==> Byte(c) == Byte(d)
  {
    if CharToOneHotCalculate(c) == CharToOneHotCalculate(d) {
      var v := CharToOneHotCalculate(c).value;
      assert v[Byte(c)] == 1.0;
    }
  }

  /** The space is accepted, while the Cary glyphs from '^' to '~' are
      rejected. */
  lemma CaryGlyphsAccepted(c: char)
    ensures CharToOneHotCalculate(' ').Ok?
    ensures '^' <= c <= '~' ==> CharToOneHotCalculate(c).Err?
    ensures '!' <= c <= ']' ==> CharToOneHotCalculate(c).Ok?
  {
  }

  /** The chars of `s` the encoding accepts, in order. */
  function Accepted(s: string): (a: string)
    ensures forall i :: 0 <= i < |a| ==> Byte(a[i]) < AcceptedBytes
    decreases |s|
  {
    if s == [] then []
    else Accepted(s[..|s| - 1]) + (if Byte(s[|s| - 1]) < AcceptedBytes then [s[|s| - 1]] else [])
  }

  /** `string_to_one_hot`: one vector per char the encoding accepts. */
  function OneHotSequence(s: string): seq<Vector>
    decreases |s|
  {
    if s == [] then []
    else
      var r := CharToOneHotCalculate(s[|s| - 1]);
      OneHotSequence(s[..|s| - 1]) + (if r.Ok? then [r.value] else [])
  }

  /** The vectors of a text are those of its accepted chars, in order: the
      rejected chars are dropped and nothing else is. */
  lemma {:induction false} OneHotSequenceFilters(s: string)
    ensures |OneHotSequence(s)| == |Accepted(s)|
    ensures forall i :: 0 <= i < |Accepted(s)| ==>
      Ok(OneHotSequence(s)[i]) == CharToOneHotCalculate(Accepted(s)[i])
    decreases |s|
  {
    if s != [] {
      var s' := s[..|s| - 1];
      OneHotSequenceFilters(s');
      var v := OneHotSequence(s');
      var a := Accepted(s');
      var c := s[|s| - 1];
      if Byte(c) < AcceptedBytes {
        assert OneHotSequence(s) == v + [CharToOneHotCalculate(c).value];
        assert Accepted(s) == a + [c];
        forall i | 0 <= i < |Accepted(s)|
          ensures Ok(OneHotSequence(s)[i]) == CharToOneHotCalculate(Accepted(s)[i])
        {
          if i < |a| {
            assert OneHotSequence(s)[i] == v[i] && Accepted(s)[i] == a[i];
          }
        }
      } else {
        assert OneHotSequence(s) == v + [];
        assert Accepted(s) == a + [];
      }
    }
  }

  /** The set of chars of `s` the encoding accepts. */
  function AcceptedSet(s: string): set<char>
  {
    set c | c in s && Byte(c) < AcceptedBytes
  }

  /** One more char of a text: its vector, if any, is appended, and the
      set of accepted chars gains it if it is accepted. */
  lemma NextChar(s: string, k: nat)
    requires k < |s|
    ensures OneHotSequence(s[..k + 1]) == OneHotSequence(s[..k])
      + (if CharToOneHotCalculate(s[k]).Ok? then [CharToOneHotCalculate(s[k]).value] else [])
    ensures AcceptedSet(s[..k + 1]) == AcceptedSet(s[..k]) + (if Byte(s[k]) < AcceptedBytes then {s[k]} else {})
  {
    assert s[..k + 1][..k] == s[..k];
    assert s[..k + 1] == s[..k] + [s[k]];
  }

  class CharToOneHot {
    var cache: map<char, Vector>

    /** Every cached vector is the one the calculation gives. */
    ghost predicate Valid()
      reads this
    {
      forall c :: c in cache ==> CharToOneHotCalculate(c) == Ok(cache[c])
    }

    /** `new`: an empty cache. */
    constructor ()
      ensures Valid() && cache == map[]
    {
      cache := map[];
    }

    /** `char_to_one_hot`: the cached vector on a hit; otherwise the
        calculation, stored in the cache when it succeeds. */
    method Convert(c: char) returns (r: Result<Vector>)
      requires Valid()
      modifies this
      ensures Valid()
      ensures r == CharToOneHotCalculate(c)
      ensures cache == if r.Ok? then old(cache)[c := r.value] else old(cache)
      ensures c in old(cache) ==> cache == old(cache)
    {
      if c in cache {
        r := Ok(cache[c]);
      } else {
        var out := CharToOneHotCalculate(c);
        if out.Err? {
          return Err(out.error);
        }
        cache := cache[c := out.value];
        r := Ok(out.value);
      }
    }

    /** `string_to_one_hot`, consumed in full: the vectors of the accepted
        chars in order; the cache gains exactly the accepted chars. */
    method StringToOneHot(s: string) returns (vs: seq<Vector>)
      requires Valid()
      modifies this
      ensures Valid()
      ensures vs == OneHotSequence(s)
      ensures cache.Keys == old(cache).Keys + AcceptedSet(s)
    {
      vs := [];
      for k := 0 to |s|
        invariant Valid()
        invariant vs == OneHotSequence(s[..k])
        invariant cache.Keys == old(cache).Keys + AcceptedSet(s[..k])
      {
        var c := s[k];
        NextChar(s, k);
        var r := Convert(c);
        if r.Ok? {
          vs := vs + [r.value];
        }
      }
      assert s[..|s|] == s;
    }
  }

  /** `batchify`: every window of WINDOW_SIZE consecutive vectors of the
      text, at every start. The padding branch after the loop cannot run:
      the loop stops only once `start + WINDOW_SIZE` exceeds the length. */
  method Batchify(converter: CharToOneHot, s: string) returns (batches: seq<seq<Vector>>)
    requires converter.Valid()
    modifies converter
    ensures converter.Valid()
    ensures converter.cache.Keys == old(converter.cache.Keys) + AcceptedSet(s)
    ensures |batches| == if |OneHotSequence(s)| >= WindowSize then |OneHotSequence(s)| - WindowSize + 1 else 0
    ensures forall i :: 0 <= i < |batches| ==>
      |batches[i]| == WindowSize && batches[i] == OneHotSequence(s)[i..i + WindowSize]
  {
    var sequence := converter.StringToOneHot(s);
    var n := |sequence|;
    batches := [];
    var start := 0;
    while start + WindowSize <= n
      invariant start == |batches|
      invariant n >= WindowSize ==> start <= n - WindowSize + 1
      invariant n < WindowSize ==> start == 0
      invariant forall i :: 0 <= i < |batches| ==> batches[i] == sequence[i..i + WindowSize]
      decreases n - start
    {
      var end := start + WindowSize;
      batches := batches + [sequence[start..end]];
      start := start + WindowStep;
    }
    if n > start + MinWindowSize {
      assert false;
    }
  }
}
