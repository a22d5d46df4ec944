/** Byte strings: big-endian numbers, 32-byte words, lexicographic order, and the hash they are fed to. */
module Bytes {

  type Byte = x: int | 0 <= x < 256
  type Bytes = seq<Byte>

  type Digest = b: Bytes | |b| == 32 witness Zeros(32)

  /** A hash function with 32-byte results. Every theorem quantifies over all of them: nothing else
      (in particular no injectivity) is assumed of keccak-256 or SHA-256. */
  type Keccak = Bytes -> Digest

  function Zeros(n: nat): (b: Bytes)
    ensures |b| == n
    ensures forall i :: 0 <= i < n ==> b[i] == 0
  {
    seq(n, i => 0)
  }

  // ----- big-endian numbers

  function Pow256(n: nat): (r: nat)
    ensures r >= 1
  {
    if n == 0 then 1 else 256 * Pow256(n - 1)
  }

  lemma {:induction false} Pow256Monotone(m: nat, n: nat)
    requires m <= n
    ensures Pow256(m) <= Pow256(n)
  {
    if m < n {
      Pow256Monotone(m, n - 1);
    }
  }

  function FromBytes(b: Bytes): (v: nat)
  {
    if b == [] then 0 else FromBytes(b[..|b| - 1]) * 256 + b[|b| - 1]
  }

  /** `int.to_bytes(n, "big")`; Python raises OverflowError where the precondition fails. */
  function ToBytes(v: nat, n: nat): (b: Bytes)
    requires v < Pow256(n)
    ensures |b| == n && FromBytes(b) == v
  {
    if n == 0 then [] else ToBytes(v / 256, n - 1) + [v % 256]
  }

  /** Fixed-length big-endian encoding is a bijection: `ToBytes` also inverts `FromBytes`. */
  lemma {:induction false} ToFromBytes(b: Bytes)
    ensures FromBytes(b) < Pow256(|b|)
    ensures ToBytes(FromBytes(b), |b|) == b
  {
    if b == [] {
    } else {
      ToFromBytes(b[..|b| - 1]);
      assert FromBytes(b) / 256 == FromBytes(b[..|b| - 1]);
    }
  }

  // ----- slices of concatenations

  lemma SliceLeft<T>(a: seq<T>, b: seq<T>, i: nat, j: nat)
    requires i <= j <= |a|
    ensures (a + b)[i..j] == a[i..j]
  {
  }

  lemma SliceRight<T>(a: seq<T>, b: seq<T>, i: nat, j: nat)
    requires i <= j <= |b|
    ensures (a + b)[|a| + i..|a| + j] == b[i..j]
  {
  }

  // ----- 32-byte words

  predicate Fits(v: nat) { v < Pow256(32) }

  predicate AllFit(vs: seq<nat>) { forall i :: 0 <= i < |vs| ==> Fits(vs[i]) }

  /** Small constants fit in a word. */
  lemma SmallFits()
    ensures forall v: nat {:trigger Fits(v)} :: v < 65536 ==> Fits(v)
  {
    assert 65536 <= Pow256(2);
    Pow256Monotone(2, 32);
  }

  function Word(v: nat): (b: Bytes)
    requires Fits(v)
    ensures |b| == 32 && FromBytes(b) == v
  {
    ToBytes(v, 32)
  }

  function Words(vs: seq<nat>): (b: Bytes)
    requires AllFit(vs)
    ensures |b| == 32 * |vs|
  {
    if vs == [] then [] else Word(vs[0]) + Words(vs[1..])
  }

  lemma {:induction false} WordsInjective(u: seq<nat>, v: seq<nat>)
    requires AllFit(u) && AllFit(v) && Words(u) == Words(v)
    ensures u == v
  {
    if u == [] {
    } else {
      assert Words(u)[..32] == Word(u[0]) && Words(v)[..32] == Word(v[0]);
      assert Words(u)[32..] == Words(u[1..]) && Words(v)[32..] == Words(v[1..]);
      WordsInjective(u[1..], v[1..]);
    }
  }

  lemma {:induction false} WordsConcat(u: seq<nat>, v: seq<nat>)
    requires AllFit(u) && AllFit(v)
    ensures AllFit(u + v) && Words(u + v) == Words(u) + Words(v)
  {
    if u == [] {
      assert u + v == v;
    } else {
      WordsConcat(u[1..], v);
      assert (u + v)[1..] == u[1..] + v;
    }
  }

  /** `-n % 32` */
  function Padding(n: nat): (p: nat)
    ensures p < 32 && (n + p) % 32 == 0
  {
    (32 - n % 32) % 32
  }

  // ----- Python's order on bytes objects

  predicate Less(a: Bytes, b: Bytes)
  {
    b != [] && (a == [] || a[0] < b[0] || (a[0] == b[0] && Less(a[1..], b[1..])))
  }

  lemma {:induction false} LessTrichotomy(a: Bytes, b: Bytes)
    ensures Less(a, b) ==> !Less(b, a) && a != b
    ensures Less(a, b) || a == b || Less(b, a)
  {
    if a != [] && b != [] {
      LessTrichotomy(a[1..], b[1..]);
      assert a == [a[0]] + a[1..] && b == [b[0]] + b[1..];
    }
  }
}
