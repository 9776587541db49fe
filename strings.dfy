/** Small facts about strings shared by the encoder and the decoder. */
module Strings {

  /** Number of occurrences of `c` in `s`, counted from the end so that it
      follows a string built by appending. */
  function Count(s: string, c: char): nat
    decreases |s|
  {
    if s == [] then 0
    else Count(s[..|s| - 1], c) + (if s[|s| - 1] == c then 1 else 0)
  }

  /** Counting distributes over concatenation. */
  lemma {:induction false} CountAppend(a: string, b: string, c: char)
    ensures Count(a + b, c) == Count(a, c) + Count(b, c)
    decreases |b|
  {
    if b == [] {
      assert a + b == a;
    } else {
      var b' := b[..|b| - 1];
      assert (a + b)[..|a + b| - 1] == a + b';
      CountAppend(a, b', c);
    }
  }

  /** A one-character string counts one occurrence of its character. */
  lemma CountOne(c: char, d: char)
    ensures Count([c], d) == if c == d then 1 else 0
  {
    assert [c][..0] == [];
  }

  /** A string in which `c` does not occur counts zero of it. */
  lemma {:induction false} CountAbsent(s: string, c: char)
    requires forall i :: 0 <= i < |s| ==> s[i] != c
    ensures Count(s, c) == 0
    decreases |s|
  {
    if s != [] {
      CountAbsent(s[..|s| - 1], c);
    }
  }

  /** The characters of several lines, in order, without separators: what a
      loop over `reader.lines()` and then over each line's chars visits. */
  function Flatten(lines: seq<string>): string
    decreases |lines|
  {
    if lines == [] then [] else Flatten(lines[..|lines| - 1]) + lines[|lines| - 1]
  }

  /** Every partly visited line gives a prefix of the whole flattened text. */
  lemma {:induction false} FlattenPrefix(lines: seq<string>, i: nat, k: nat)
    requires i < |lines| && k <= |lines[i]|
    ensures Flatten(lines[..i]) + lines[i][..k] <= Flatten(lines)
    ensures Flatten(lines[..i]) + lines[i] == Flatten(lines[..i + 1])
    decreases |lines|
  {
    var n := |lines|;
    assert lines[..i + 1][..i] == lines[..i];
    if i == n - 1 {
      assert lines[..i + 1] == lines;
    } else {
      assert lines[..n - 1][..i] == lines[..i];
      assert lines[..n - 1][i] == lines[i];
      FlattenPrefix(lines[..n - 1], i, k);
      assert lines[..n - 1][..i + 1] == lines[..i + 1];
    }
  }
}
