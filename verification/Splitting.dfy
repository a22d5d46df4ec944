/** Cutting a list into near-equal pieces (`split_sizes` and `slices` in airdrop/tools/safe_batch.py). */
module Splitting {
  import opened Lists

  function Repeat(x: nat, n: nat): (s: seq<nat>)
    ensures |s| == n && forall i :: 0 <= i < n ==> s[i] == x
  {
    seq(n, i => x)
  }

  lemma {:induction false} SumRepeat(x: nat, n: nat)
    ensures Sum(Repeat(x, n)) == n * x
  {
    if n > 0 {
      SumRepeat(x, n - 1);
      assert Repeat(x, n)[1..] == Repeat(x, n - 1);
      OneMore(n, x);
    }
  }

  /** How many pieces of at most `max` it takes: `-(-left // max)`. */
  function Parts(left: nat, max: nat): (p: nat)
    requires max >= 1
    ensures left > 0 ==> p >= 1 && p <= left
  {
    if left == 0 then 0
    else
      QuotientAtMost(left - 1, max);
      1 + (left - 1) / max
  }

  lemma QuotientAtMost(a: nat, d: nat)
    requires d >= 1
    ensures 0 <= a / d <= a
  {
    assert a == d * (a / d) + a % d;
  }

  /** Near-equal sizes. */
  function Even(left: nat, max: nat): seq<nat>
    requires max >= 1
  {
    if left == 0 then []
    else
      var parts := Parts(left, max);
      Repeat(left / parts + 1, left % parts) + Repeat(left / parts, parts - left % parts)
  }

  /** An optional first piece (0 for none), then near-equal ones. */
  function SplitSizes(count: nat, max: nat, first: nat): seq<nat>
    requires max >= 1
  {
    if first == 0 then Even(count, max)
    else
      var head := if first < count then first else count;
      [head] + Even(count - head, max)
  }

  lemma PartsFewest(left: nat, max: nat)
    requires max >= 1
    ensures left <= Parts(left, max) * max
    ensures forall p: nat :: left <= p * max ==> Parts(left, max) <= p
  {
    if left > 0 {
      var q := (left - 1) / max;
      assert left - 1 == q * max + (left - 1) % max;
      assert (q + 1) * max == q * max + max;
      forall p: nat | left <= p * max ensures q + 1 <= p {
        Cancels(max, q, p);
      }
    }
  }

  lemma Divided(left: nat, parts: nat, max: nat)
    requires parts >= 1 && left <= parts * max
    ensures left == (left % parts) * (left / parts + 1) + (parts - left % parts) * (left / parts)
    ensures left / parts <= max && (left % parts > 0 ==> left / parts + 1 <= max)
  {
    var base, extra := left / parts, left % parts;
    assert left == parts * base + extra;
    assert extra * (base + 1) + (parts - extra) * base == parts * base + extra;
    if base > 0 {
      assert parts * (base - 1) < left;
      Cancels(parts, base - 1, max);
    }
    if extra > 0 {
      Cancels(parts, base, max);
    }
  }

  /** The pieces add up, none is larger than allowed or empty, no two differ by more than one, the larger ones come first,
      and there are as few as possible. */
  lemma EvenSizes(left: nat, max: nat)
    requires max >= 1
    ensures Sum(Even(left, max)) == left && |Even(left, max)| == Parts(left, max)
    ensures forall i :: 0 <= i < |Even(left, max)| ==> 1 <= Even(left, max)[i] <= max
    ensures forall i, j :: 0 <= i < |Even(left, max)| && 0 <= j < |Even(left, max)| ==> Even(left, max)[i] <= Even(left, max)[j] + 1
    ensures forall i, j :: 0 <= i < j < |Even(left, max)| ==> Even(left, max)[i] >= Even(left, max)[j]
    ensures forall p: nat :: left <= p * max ==> |Even(left, max)| <= p
  {
    hide Sum;
    if left == 0 {
      assert Even(left, max) == [];
      EmptySum();
    } else {
      PartsFewest(left, max);
      var parts := Parts(left, max);
      var base, extra := left / parts, left % parts;
      Divided(left, parts, max);
      SumRepeat(base + 1, extra);
      SumRepeat(base, parts - extra);
      SumConcat(Repeat(base + 1, extra), Repeat(base, parts - extra));
      AtLeastOne(left, parts);
    }
  }

  lemma AtLeastOne(left: nat, parts: nat)
    requires 1 <= parts <= left
    ensures left / parts >= 1
  {
  }

  /** With a first piece, of the size asked for or the whole list, the sizes still add up to the list. */
  lemma SplitSizesSum(count: nat, max: nat, first: nat)
    requires max >= 1
    ensures Sum(SplitSizes(count, max, first)) == count
    ensures first > 0 ==> SplitSizes(count, max, first) != [] && SplitSizes(count, max, first)[0] == if first < count then first else count
    ensures first > 0 ==> SplitSizes(count, max, first)[1..] == Even(if first < count then count - first else 0, max)
  {
    hide Even;
    if first == 0 {
      EvenSizes(count, max);
    } else {
      var head := if first < count then first else count;
      EvenSizes(count - head, max);
      assert ([head] + Even(count - head, max))[1..] == Even(count - head, max);
    }
  }

  // ----- slices

  /** A Python slice past the end is cut short. */
  function Upto<T>(rows: seq<T>, n: nat): seq<T> { if n <= |rows| then rows[..n] else rows }

  function After<T>(rows: seq<T>, n: nat): seq<T> { if n <= |rows| then rows[n..] else [] }

  function Cuts<T>(rows: seq<T>, sizes: seq<nat>): (r: seq<seq<T>>)
    ensures |r| == |sizes|
    decreases |sizes|
  {
    if sizes == [] then []
    else [Upto(rows, sizes[0])] + Cuts(After(rows, sizes[0]), sizes[1..])
  }

  lemma CutOne<T>(rows: seq<T>, start: nat, size: nat)
    ensures Upto(After(rows, start), size) == Slice(rows, start, start + size)
    ensures After(After(rows, start), size) == After(rows, start + size)
  {
  }

  method Slices<T>(rows: seq<T>, sizes: seq<nat>) returns (out: seq<seq<T>>)
    ensures out == Cuts(rows, sizes)
  {
    out := [];
    var start: nat, k := 0, 0;
    assert After(rows, 0) == rows && sizes[0..] == sizes;
    hide Upto, After, Cuts, Slice;
    while k < |sizes|
      invariant k <= |sizes|
      invariant out + Cuts(After(rows, start), sizes[k..]) == Cuts(rows, sizes)
    {
      var size := sizes[k];
      CutsStep(rows, start, sizes, k);
      var piece := Slice(rows, start, start + size);
      CutOne(rows, start, size);
      Associative(out, [piece], Cuts(After(rows, start + size), sizes[k + 1..]));
      out := out + [piece];
      start, k := start + size, k + 1;
    }
    assert sizes[k..] == [] && out + [] == out;
    CutsNone(After(rows, start));
  }

  lemma CutsStep<T>(rows: seq<T>, start: nat, sizes: seq<nat>, k: nat)
    requires k < |sizes|
    ensures Cuts(After(rows, start), sizes[k..])
         == [Upto(After(rows, start), sizes[k])] + Cuts(After(rows, start + sizes[k]), sizes[k + 1..])
  {
    CutOne(rows, start, sizes[k]);
    assert sizes[k..][1..] == sizes[k + 1..];
  }

  lemma CutsNone<T>(rows: seq<T>)
    ensures Cuts(rows, []) == []
  {
  }

  /** Slices whose sizes add up to the list are the list, cut. */
  lemma {:induction false} CutsCover<T>(rows: seq<T>, sizes: seq<nat>)
    requires Sum(sizes) == |rows|
    ensures Flatten(Cuts(rows, sizes)) == rows
    ensures forall i :: 0 <= i < |sizes| ==> |Cuts(rows, sizes)[i]| == sizes[i]
    decreases |sizes|
  {
    if sizes != [] {
      CutsCover(After(rows, sizes[0]), sizes[1..]);
      assert rows == rows[..sizes[0]] + rows[sizes[0]..];
    }
  }

  function Chunks<T>(rows: seq<T>, max: nat): seq<seq<T>>
    requires max >= 1
  {
    Cuts(rows, SplitSizes(|rows|, max, 0))
  }

  lemma ChunksCover<T>(rows: seq<T>, max: nat)
    requires max >= 1
    ensures Flatten(Chunks(rows, max)) == rows
    ensures forall i :: 0 <= i < |Chunks(rows, max)| ==> 1 <= |Chunks(rows, max)[i]| <= max
  {
    hide Even, Cuts;
    EvenSizes(|rows|, max);
    CutsCover(rows, SplitSizes(|rows|, max, 0));
  }
}
