/** Reading ABI-encoded words and arrays the way a contract does: every field at its place, every array through its
    offset. */
module AbiReader {
  import opened Bytes
  import opened Options

  function WordAt(b: Bytes, at: nat): nat
  {
    if at + 32 <= |b| then FromBytes(b[at..at + 32]) else 0
  }

  function WordsFrom(b: Bytes, at: nat, n: nat): (r: seq<nat>)
    ensures |r| == n
    decreases n
  {
    if n == 0 then [] else [WordAt(b, at)] + WordsFrom(b, at + 32, n - 1)
  }

  /** The array whose length word is at `at`; a contract reverts where it does not fit. */
  function ReadArray(b: Bytes, at: nat): Option<seq<nat>>
  {
    if at + 32 > |b| then None
    else
      var n := WordAt(b, at);
      if at + 32 + 32 * n > |b| then None else Some(WordsFrom(b, at + 32, n))
  }

  /** The byte string whose length word is at `at`. */
  function ReadBytes(b: Bytes, at: nat): Option<Bytes>
  {
    if at + 32 > |b| then None
    else
      var n := WordAt(b, at);
      if at + 32 + n > |b| then None else Some(b[at + 32..at + 32 + n])
  }

  lemma {:induction false} WordsAt(vs: seq<nat>, i: nat)
    requires AllFit(vs) && i < |vs|
    ensures WordAt(Words(vs), 32 * i) == vs[i]
  {
    hide FromBytes, Word;
    var b := Words(vs);
    if i == 0 {
      assert b[0..32] == Word(vs[0]);
    } else {
      WordsAt(vs[1..], i - 1);
      SliceRight(Word(vs[0]), Words(vs[1..]), 32 * (i - 1), 32 * (i - 1) + 32);
    }
  }

  lemma {:induction false} WordsFromIs(vs: seq<nat>, i: nat, n: nat)
    requires AllFit(vs) && i + n <= |vs|
    ensures WordsFrom(Words(vs), 32 * i, n) == vs[i..i + n]
    decreases n
  {
    hide Words, WordAt, Fits;
    if n > 0 {
      WordsAt(vs, i);
      WordsFromIs(vs, i + 1, n - 1);
      assert vs[i..i + n] == [vs[i]] + vs[i + 1..i + n];
    }
  }

  /** An array written as its length and its words is read back. */
  lemma ArrayIs(vs: seq<nat>, i: nat)
    requires AllFit(vs) && i < |vs| && i + 1 + vs[i] <= |vs|
    ensures ReadArray(Words(vs), 32 * i) == Some(vs[i + 1..i + 1 + vs[i]])
  {
    hide Words, WordAt, WordsFrom, Fits, AllFit;
    WordsAt(vs, i);
    var n := vs[i];
    assert 32 * (i + 1) == 32 * i + 32 && 32 * i + 32 + 32 * n <= 32 * |vs|;
    WordsFromIs(vs, i + 1, n);
  }
}
