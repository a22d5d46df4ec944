/** Which node lengths `tree_verify` of airdrop/tools/common.py is sound for, exactly: wherever the lengths are those of a
    forgery there is one, with a hash function that has no collision among the strings hashed. */
module MerkleForgery {
  import opened Bytes
  import opened Lists
  import opened MerkleTree

  // ----- a hash function that counts

  /** The number in the first 32 bytes. */
  function Num(u: Bytes): nat { if |u| >= 32 then FromBytes(u[..32]) else 0 }

  /** One more than that, as a digest. */
  function Count(u: Bytes): Digest
  {
    if Fits(Num(u) + 1) then Word(Num(u) + 1) else Zeros(32)
  }

  function Counting(): Keccak { u => Count(u) }

  /** Numbers below this stay small enough: their first byte is zero and they never wrap. */
  predicate Small(n: nat) { n < Pow256(31) }

  lemma SmallFits32(n: nat)
    requires Small(n)
    ensures Fits(n) && Fits(n + 1)
  {
    assert Pow256(32) == 256 * Pow256(31);
  }

  lemma CountIs(u: Bytes)
    requires Small(Num(u))
    ensures Fits(Num(u) + 1) && Counting()(u) == Word(Num(u) + 1)
  {
    SmallFits32(Num(u));
  }

  lemma CountInjective(u: Bytes, v: Bytes)
    requires Small(Num(u)) && Small(Num(v)) && Counting()(u) == Counting()(v)
    ensures Num(u) == Num(v)
  {
    hide Pow256, Word, Num, Counting;
    CountIs(u);
    CountIs(v);
  }

  lemma NumOfWord(n: nat, rest: Bytes)
    requires Fits(n)
    ensures Num(Word(n) + rest) == n
  {
    hide Word, Pow256, FromBytes;
    assert (Word(n) + rest)[..32] == Word(n);
  }

  lemma NumOfWordAlone(n: nat)
    requires Fits(n)
    ensures Num(Word(n)) == n
  {
    hide Word, Pow256, FromBytes;
    assert Word(n)[..32] == Word(n);
  }

  lemma WordOfNum(b: Bytes)
    requires |b| == 32
    ensures Fits(FromBytes(b)) && Word(FromBytes(b)) == b && Num(b) == FromBytes(b)
  {
    ToFromBytes(b);
    hide ToBytes, FromBytes, Pow256;
    assert b[..32] == b;
  }

  // ----- byte order is numeric order

  lemma {:induction false} FromBytesCons(x: Byte, rest: Bytes)
    ensures FromBytes([x] + rest) == x * Pow256(|rest|) + FromBytes(rest)
  {
    var all := [x] + rest;
    if rest == [] {
      assert all[..0] == [];
    } else {
      var front, last := rest[..|rest| - 1], rest[|rest| - 1];
      assert all[..|all| - 1] == [x] + front;
      FromBytesCons(x, front);
      Shuffle(x, Pow256(|front|), FromBytes(front), last);
    }
  }

  lemma Shuffle(x: nat, p: nat, f: nat, last: nat)
    ensures (x * p + f) * 256 + last == x * (256 * p) + (f * 256 + last)
  {
  }

  lemma {:induction false} LessIsNumeric(a: Bytes, b: Bytes)
    requires |a| == |b|
    ensures Less(a, b) <==> FromBytes(a) < FromBytes(b)
  {
    if a != [] {
      var x, y, u, v := a[0], b[0], a[1..], b[1..];
      assert a == [x] + u && b == [y] + v;
      FromBytesCons(x, u);
      FromBytesCons(y, v);
      ToFromBytes(u);
      ToFromBytes(v);
      LessIsNumeric(u, v);
      hide FromBytes, Pow256;
      FirstDecides(x, y, Pow256(|u|), FromBytes(u), FromBytes(v));
    }
  }

  lemma FirstDecides(x: nat, y: nat, p: nat, u: nat, v: nat)
    requires u < p && v < p
    ensures x * p + u < y * p + v <==> x < y || (x == y && u < v)
  {
    if x < y {
      assert (x + 1) * p <= y * p;
      assert (x + 1) * p == x * p + p;
    } else if y < x {
      assert (y + 1) * p <= x * p;
      assert (y + 1) * p == y * p + p;
    }
  }

  lemma AtLeastOne(x: nat, p: nat)
    ensures x == 0 || x * p >= p
  {
  }

  lemma SmallStartsWithZero(n: nat)
    requires Small(n) && Fits(n)
    ensures Word(n)[0] == 0
  {
    hide Word, FromBytes, Pow256;
    var w := Word(n);
    var x, rest := w[0], w[1..];
    assert w == [x] + rest && |rest| == 31;
    FromBytesCons(x, rest);
    AtLeastOne(x, Pow256(|rest|));
  }

  // ----- proof nodes that stay behind the number climbing up

  function Fill(m: nat): (b: Bytes)
    ensures |b| == m
  {
    seq(m, k => 255)
  }

  /** Paired with a node, such a node leaves the number in front. */
  predicate Behind(p: Bytes, bound: nat)
  {
    p == Fill(|p|) || (|p| == 32 && FromBytes(p) >= bound)
  }

  lemma PairNum(a: nat, p: Bytes, bound: nat)
    requires Small(a) && Fits(a) && a < bound && Behind(p, bound)
    ensures PairInput(Word(a), p) == Word(a) + p && Num(PairInput(Word(a), p)) == a
  {
    NumOfWord(a, p);
    if p == Fill(|p|) {
      SmallStartsWithZero(a);
      hide Word, Pow256, FromBytes;
      assert p != [] ==> p[0] == 255;
      assert p == [] ==> [] + Word(a) == Word(a) + [];
    } else {
      hide Word, Pow256;
      LessIsNumeric(Word(a), p);
    }
  }

  /** What a climb from number x hashes, step by step. */
  ghost function Strings(x: nat, proof: seq<Bytes>): (r: seq<Bytes>)
    requires Fits(x + |proof|)
    ensures |r| == |proof| && forall t :: 0 <= t < |r| ==> r[t] == Word(x + t) + proof[t]
  {
    seq(|proof|, t requires 0 <= t < |proof| => Word(x + t) + proof[t])
  }

  /** The climb counts its steps. */
  lemma {:induction false} ClimbCounts(x: nat, proof: seq<Bytes>, bound: nat)
    requires x + |proof| <= bound && Small(bound) && (forall k :: 0 <= k < |proof| ==> Behind(proof[k], bound))
    ensures Fits(x) && Fits(x + |proof|) && Climb(Counting(), Word(x), proof) == Word(x + |proof|)
    ensures forall v :: v in ClimbInputs(Counting(), Word(x), proof) <==> v in Strings(x, proof)
    ensures forall t :: 0 <= t < |proof| ==> Num(Strings(x, proof)[t]) == x + t
  {
    hide Word, Pow256, Num, Behind, PairInput, Counting;
    SmallerIsSmall(x + |proof|, bound);
    forall t | 0 <= t < |proof| ensures Num(Strings(x, proof)[t]) == x + t {
      NumOfWord(x + t, proof[t]);
    }
    if proof != [] {
      var n := |proof| - 1;
      var shorter := proof[..n];
      ClimbCounts(x, shorter, bound);
      PairNum(x + n, proof[n], bound);
      CountIs(PairInput(Word(x + n), proof[n]));
      assert Strings(x, proof) == Strings(x, shorter) + [Word(x + n) + proof[n]];
      assert ClimbInputs(Counting(), Word(x), proof) == ClimbInputs(Counting(), Word(x), shorter) + {Word(x + n) + proof[n]};
    }
  }

  lemma SmallerIsSmall(x: nat, bound: nat)
    requires x <= bound && Small(bound)
    ensures Small(x) && Fits(x) && Fits(x + 1)
  {
    SmallFits32(x);
  }

  // ----- the tree around one leaf

  /** Node `i` of the level carries the number x; all others carry at least `bound`. */
  ghost predicate Lineage(level: seq<Bytes>, i: nat, x: nat, bound: nat, cap: nat)
  {
    && i < |level| && x < bound <= cap
    && forall j :: 0 <= j < |level| ==>
         |level[j]| == 32 && FromBytes(level[j]) <= cap && (if j == i then FromBytes(level[j]) == x else FromBytes(level[j]) >= bound)
  }

  lemma PairOfWords(a: Bytes, b: Bytes, cap: nat)
    requires |a| == |b| == 32 && FromBytes(a) <= cap && FromBytes(b) <= cap && Small(cap)
    ensures var least := if FromBytes(a) < FromBytes(b) then FromBytes(a) else FromBytes(b);
            && Num(PairInput(a, b)) == least
            && |HashPair(Counting(), a, b)| == 32 && FromBytes(HashPair(Counting(), a, b)) == least + 1
  {
    LessIsNumeric(a, b);
    WordOfNum(a);
    WordOfNum(b);
    hide Word, Pow256, FromBytes, Less, Counting, Num;
    NumOfWord(FromBytes(a), b);
    NumOfWord(FromBytes(b), a);
    CountIs(PairInput(a, b));
  }

  lemma LineageUp(level: seq<Bytes>, i: nat, x: nat, bound: nat, cap: nat)
    requires Lineage(level, i, x, bound, cap) && |level| > 1 && Small(cap)
    requires Sibling(i) < |level| ==> x + 1 < bound
    ensures Lineage(Next(Counting(), level), i / 2, if Sibling(i) < |level| then x + 1 else x, bound, cap + 1)
  {
    hide Next, FromBytes, Pow256, HashPair;
    var up := Next(Counting(), level);
    forall j | 0 <= j < |up|
      ensures && |up[j]| == 32 && FromBytes(up[j]) <= cap + 1
              && (if j == i / 2 then FromBytes(up[j]) == (if Sibling(i) < |level| then x + 1 else x) else FromBytes(up[j]) >= bound)
    {
      NextAt(Counting(), level, j);
      if 2 * j + 1 < |level| {
        PairOfWords(level[2 * j], level[2 * j + 1], cap);
      }
    }
  }

  /** The siblings on the way up stay behind, and no other string hashed for the tree has a number below the bound. */
  lemma {:induction false} LineageTree(level: seq<Bytes>, i: nat, x: nat, bound: nat, cap: nat)
    requires Lineage(level, i, x, bound, cap) && x + PathLength(|level|, i) < bound && Small(cap + |level|)
    ensures |Proof(Counting(), level, i)| == PathLength(|level|, i)
    ensures forall k :: 0 <= k < |Proof(Counting(), level, i)| ==> Behind(Proof(Counting(), level, i)[k], bound)
    ensures forall u :: u in TreeInputs(Counting(), level) ==>
              Small(Num(u)) && (Num(u) < bound ==> u in ClimbInputs(Counting(), level[i], Proof(Counting(), level, i)))
    decreases |level|
  {
    hide Next, FromBytes, Pow256, HashPair, PairInput, Num, ClimbInputs, Counting, Behind, PairInputs;
    if |level| > 1 {
      var h := Counting();
      var up := Next(h, level);
      SmallerIsSmall(cap, cap + |level|);
      LineageUp(level, i, x, bound, cap);
      SmallerIsSmall(cap + 1 + |up|, cap + |level|);
      LineageTree(up, i / 2, if Sibling(i) < |level| then x + 1 else x, bound, cap + 1);
      StepUp(h, level, i);
      var rest := Proof(h, up, i / 2);
      if Sibling(i) < |level| {
        ClimbInputsCons(h, level[i], level[Sibling(i)], rest);
        HeavyIsBehind(level[Sibling(i)], bound);
      } else {
        assert [] + rest == rest;
      }
      LevelInputs(level, i, x, bound, cap);
    }
  }

  lemma HeavyIsBehind(p: Bytes, bound: nat)
    requires |p| == 32 && FromBytes(p) >= bound
    ensures Behind(p, bound)
  {
  }

  lemma LevelInputs(level: seq<Bytes>, i: nat, x: nat, bound: nat, cap: nat)
    requires Lineage(level, i, x, bound, cap) && |level| > 1 && Small(cap)
    ensures forall u :: u in PairInputs(level) ==>
              && Small(Num(u))
              && (Num(u) < bound ==> Sibling(i) < |level| && u == PairInput(level[i], level[Sibling(i)]))
  {
    assert i < |level|;
    hide FromBytes, Pow256, PairInput, Num, Lineage, Sibling;
    forall u | u in PairInputs(level)
      ensures Small(Num(u)) && (Num(u) < bound ==> Sibling(i) < |level| && u == PairInput(level[i], level[Sibling(i)]))
    {
      var j: nat :| 2 * j + 1 < |level| && u == PairInput(level[2 * j], level[2 * j + 1]);
      PairOfLevel(level, i, x, bound, cap, j);
    }
  }

  lemma PairOfLevel(level: seq<Bytes>, i: nat, x: nat, bound: nat, cap: nat, j: nat)
    requires Lineage(level, i, x, bound, cap) && Small(cap) && 2 * j + 1 < |level|
    ensures var u := PairInput(level[2 * j], level[2 * j + 1]);
            Small(Num(u)) && (Num(u) < bound ==> Sibling(i) < |level| && u == PairInput(level[i], level[Sibling(i)]))
  {
    hide FromBytes, Pow256, PairInput, Num;
    var a, b := level[2 * j], level[2 * j + 1];
    PairOfWords(a, b, cap);
    SmallerIsSmall(Num(PairInput(a, b)), cap);
    PairInputSymmetric(a, b);
  }

  // ----- the forgery

  lemma {:induction false} ClimbConcat(h: Keccak, node: Bytes, u: seq<Bytes>, v: seq<Bytes>)
    ensures Climb(h, node, u + v) == Climb(h, Climb(h, node, u), v)
    ensures ClimbInputs(h, node, u + v) == ClimbInputs(h, node, u) + ClimbInputs(h, Climb(h, node, u), v)
  {
    hide HashPair, PairInput;
    if v == [] {
      assert u + v == u;
    } else {
      var w := v[..|v| - 1];
      ClimbConcat(h, node, u, w);
      assert (u + v)[..|u + v| - 1] == u + w;
    }
  }

  function Fills(ns: seq<nat>): (r: seq<Bytes>)
    ensures |r| == |ns| && forall k :: 0 <= k < |r| ==> r[k] == Fill(ns[k])
  {
    seq(|ns|, k requires 0 <= k < |ns| => Fill(ns[k]))
  }

  /** Encodings of the given lengths: number m + 1 at `i`, the bound everywhere else. */
  ghost function Committed(ls: seq<nat>, i: nat, m: nat, bound: nat): (encs: seq<Bytes>)
    requires Fits(m + 1) && Fits(bound) && forall j :: 0 <= j < |ls| ==> ls[j] >= 32
    ensures Lengths(encs) == ls
  {
    seq(|ls|, j requires 0 <= j < |ls| => Word(if j == i then m + 1 else bound) + Fill(ls[j] - 32))
  }

  /** The outsider: 32 zero bytes. */
  ghost function Outsider(): Bytes
  {
    SmallFits();
    Word(0)
  }

  lemma OutsiderLeaf()
    ensures Fits(1) && Fits(2) && Num(Outsider()) == 0 && Counting()(Outsider()) == Word(1) && Num(Word(1)) == 1
    ensures Leaf(Counting(), Outsider()) == Word(2)
  {
    SmallFits();
    SmallNumbers();
    hide Word, Pow256, Num, Counting;
    NumOfWordAlone(0);
    NumOfWordAlone(1);
    CountIs(Outsider());
    CountIs(Word(1));
  }

  lemma SmallNumbers()
    ensures forall n: nat {:trigger Small(n)} :: n < 65536 ==> Small(n)
  {
    assert 65536 <= Pow256(2);
    Pow256Monotone(2, 31);
  }

  lemma EncodedLeaf(n: nat, rest: Bytes)
    requires Small(n + 2) && Fits(n)
    ensures var e := Word(n) + rest;
            && Num(e) == n && Fits(n + 1) && Fits(n + 2) && Counting()(e) == Word(n + 1) && Num(Word(n + 1)) == n + 1
            && Leaf(Counting(), e) == Word(n + 2)
  {
    hide Word, Pow256, Num, Counting;
    SmallerIsSmall(n, n + 2);
    SmallerIsSmall(n + 1, n + 2);
    NumOfWord(n, rest);
    NumOfWordAlone(n + 1);
    CountIs(Word(n) + rest);
    CountIs(Word(n + 1));
  }

  /** The leaves of the constructed list, and the strings hashed for them. */
  lemma CommittedLeaves(ls: seq<nat>, i: nat, m: nat, bound: nat)
    requires i < |ls| && m + 3 < bound && Small(bound + 2) && Fits(m + 1) && Fits(bound)
    requires forall j :: 0 <= j < |ls| ==> ls[j] >= 32
    ensures var encs := Committed(ls, i, m, bound);
            && Lineage(Leaves(Counting(), encs), i, m + 3, bound, bound + 2)
            && Outsider() !in encs
            && Fits(m + 2) && Fits(m + 3) && Leaves(Counting(), encs)[i] == Word(m + 3)
            && (forall u :: u in LeafInputs(Counting(), encs) ==>
                  Small(Num(u)) && (Num(u) < bound ==> u == encs[i] || u == Word(m + 2)))
  {
    hide Word, Pow256, Num, Counting, Leaf;
    var encs := Committed(ls, i, m, bound);
    OutsiderLeaf();
    forall j | 0 <= j < |encs|
      ensures var n := if j == i then m + 1 else bound;
              && Num(encs[j]) == n && Fits(n + 1) && Fits(n + 2) && Counting()(encs[j]) == Word(n + 1)
              && Num(Word(n + 1)) == n + 1 && Leaf(Counting(), encs[j]) == Word(n + 2)
              && Small(n) && Small(n + 1)
    {
      var n := if j == i then m + 1 else bound;
      SmallerIsSmall(n, bound + 2);
      SmallerIsSmall(n + 1, bound + 2);
      SmallerIsSmall(n + 2, bound + 2);
      EncodedLeaf(n, Fill(ls[j] - 32));
    }
  }

  /** The forged proof: filled nodes up to the empty one, then the leaf's own path. */
  ghost function Forged(encs: seq<Bytes>, ns: seq<nat>, i: nat, m: nat): seq<Bytes>
    requires m < |ns|
  {
    Fills(ns[..m + 1]) + Proof(Counting(), Leaves(Counting(), encs), i)
  }

  /** Its lengths are the given ones, it is accepted for the outsider, and the strings hashed carry different numbers. */
  lemma ForgedClimbs(ls: seq<nat>, ns: seq<nat>, i: nat, m: nat, bound: nat)
    requires ForgesAt(ls, ns, i, m) && bound == |ns| + 4 && Small(bound + 2 + |ls|) && Fits(m + 1) && Fits(bound)
    requires forall j :: 0 <= j < |ls| ==> ls[j] >= 32
    ensures var h, encs := Counting(), Committed(ls, i, m, bound);
            var proof := Forged(encs, ns, i, m);
            && Lengths(proof) == ns
            && Climb(h, Leaf(h, Outsider()), proof) == Root(h, Leaves(h, encs))
            && Fits(2) && (forall k :: 0 <= k < |proof| ==> Behind(proof[k], bound))
            && (forall u :: u in TreeInputs(h, Leaves(h, encs)) ==>
                  Small(Num(u)) && (Num(u) < bound ==> u in VerifyInputs(h, Outsider(), proof)))
  {
    hide Word, Pow256, Num, Counting, Climb, ClimbInputs, TreeInputs, Committed, Behind, PathLength;
    var h, encs := Counting(), Committed(ls, i, m, bound);
    var leaves := Leaves(h, encs);
    var path, fills := Proof(h, leaves, i), Fills(ns[..m + 1]);
    var proof := fills + path;
    SmallerIsSmall(bound + 2, bound + 2 + |ls|);
    SmallerIsSmall(bound, bound + 2 + |ls|);
    CommittedLeaves(ls, i, m, bound);
    LineageTree(leaves, i, m + 3, bound, bound + 2);
    ProofIsDigests(h, leaves, i);
    ProofVerifies(h, leaves, i);
    OutsiderLeaf();
    forall k | 0 <= k < |fills| ensures Behind(fills[k], bound) {
      FillIsBehind(ns[k], bound);
    }
    ClimbCounts(2, fills, bound);
    ClimbConcat(h, Word(2), fills, path);
  }

  lemma FillIsBehind(m: nat, bound: nat)
    ensures Behind(Fill(m), bound)
  {
  }

  /** The strings hashed for the forged proof carry different numbers, all below the bound. */
  lemma VerifyNumbers(proof: seq<Bytes>, bound: nat, v: Bytes) returns (t: int)
    requires 2 + |proof| < bound && Small(bound) && (forall k :: 0 <= k < |proof| ==> Behind(proof[k], bound))
    requires v in VerifyInputs(Counting(), Outsider(), proof)
    ensures -2 <= t < |proof| && Num(v) == 2 + t
    ensures t == -2 ==> v == Outsider()
    ensures t == -1 ==> Fits(1) && v == Word(1)
    ensures t >= 0 ==> Fits(2 + t) && v == Word(2 + t) + proof[t]
  {
    hide Word, Pow256, Num, Counting, Behind, ClimbInputs;
    OutsiderLeaf();
    ClimbCounts(2, proof, bound);
    if v == Outsider() {
      t := -2;
    } else if v == Word(1) {
      t := -1;
    } else {
      t :| 0 <= t < |proof| && v == Strings(2, proof)[t];
    }
  }

  /** Encoding `i` and its digest are among them. */
  lemma EncodingIsHashed(ls: seq<nat>, ns: seq<nat>, i: nat, m: nat, bound: nat)
    requires ForgesAt(ls, ns, i, m) && bound == |ns| + 4 && Small(bound + 2 + |ls|) && Fits(m + 1) && Fits(bound) && Fits(m + 2)
    requires forall j :: 0 <= j < |ls| ==> ls[j] >= 32
    ensures var encs := Committed(ls, i, m, bound);
            var vs := VerifyInputs(Counting(), Outsider(), Forged(encs, ns, i, m));
            encs[i] in vs && Word(m + 2) in vs
  {
    hide Word, Pow256, Num, Counting, Behind, ClimbInputs, Climb, TreeInputs, Root;
    var encs := Committed(ls, i, m, bound);
    var proof := Forged(encs, ns, i, m);
    SmallerIsSmall(bound, bound + 2 + |ls|);
    OutsiderLeaf();
    ForgedClimbs(ls, ns, i, m, bound);
    ClimbCounts(2, proof, bound);
    assert proof[m] == Fill(0);
    assert Strings(2, proof)[m] == Word(m + 2) + [] == Word(m + 2);
    if m == 0 {
      assert encs[i] == Word(1) + Fill(0) == Word(1);
    } else {
      assert encs[i] == Strings(2, proof)[m - 1];
    }
  }

  lemma ForgeryHasNoCollision(ls: seq<nat>, ns: seq<nat>, i: nat, m: nat, bound: nat)
    requires ForgesAt(ls, ns, i, m) && bound == |ns| + 4 && Small(bound + 2 + |ls|) && Fits(m + 1) && Fits(bound)
    requires forall j :: 0 <= j < |ls| ==> ls[j] >= 32
    ensures var h, encs := Counting(), Committed(ls, i, m, bound);
            !Collision(h, CommitInputs(h, encs), VerifyInputs(h, Outsider(), Forged(encs, ns, i, m)))
  {
    hide Word, Pow256, Num, Counting, Behind, ClimbInputs, Climb, TreeInputs, Root, Committed, Forged, VerifyInputs, LeafInputs, PathLength;
    var h, encs := Counting(), Committed(ls, i, m, bound);
    var proof := Forged(encs, ns, i, m);
    var vs := VerifyInputs(h, Outsider(), proof);
    SmallerIsSmall(bound, bound + 2 + |ls|);
    SmallerIsSmall(bound + 2, bound + 2 + |ls|);
    CommittedLeaves(ls, i, m, bound);
    ForgedClimbs(ls, ns, i, m, bound);
    EncodingIsHashed(ls, ns, i, m, bound);
    forall u, v | u in CommitInputs(h, encs) && v in vs && h(u) == h(v) ensures u == v {
      var t := VerifyNumbers(proof, bound, v);
      SmallerIsSmall(Num(v), bound);
      CountInjective(u, v);
      var s := VerifyNumbers(proof, bound, u);
    }
  }

  /** For these lengths of encodings and nodes, whatever is accepted was committed to, or the strings hashed collide. */
  ghost predicate SoundFor(ls: seq<nat>, ns: seq<nat>)
  {
    forall h: Keccak, encs: seq<Bytes>, enc: Bytes, proof: seq<Bytes> ::
      (Lengths(encs) == ls && Lengths(proof) == ns && encs != [] && Climb(h, Leaf(h, enc), proof) == Root(h, Leaves(h, encs)))
      ==> enc in encs || Collision(h, CommitInputs(h, encs), VerifyInputs(h, enc, proof))
  }

  /** Verification is sound for exactly the node lengths that are not those of a forgery. Every encoding of the source has
      at least 32 bytes; the sizes are far below the number of digests. */
  lemma SoundForIff(ls: seq<nat>, ns: seq<nat>)
    requires ls != [] && (forall j :: 0 <= j < |ls| ==> ls[j] >= 32) && Small(|ns| + |ls| + 6)
    ensures SoundFor(ls, ns) <==> !Forgeable(ls, ns)
  {
    hide Word, Pow256, Num, Counting, Climb, TreeInputs, Root, Committed, Forged, VerifyInputs, CommitInputs, Collision, ForgesAt, Leaves, Leaf;
    if !Forgeable(ls, ns) {
      forall h: Keccak, encs: seq<Bytes>, enc: Bytes, proof: seq<Bytes>
        | Lengths(encs) == ls && Lengths(proof) == ns && encs != [] && Climb(h, Leaf(h, enc), proof) == Root(h, Leaves(h, encs))
        ensures enc in encs || Collision(h, CommitInputs(h, encs), VerifyInputs(h, enc, proof))
      {
        TreeSound(h, encs, enc, proof);
      }
    } else {
      var i: nat, m: nat :| i < |ls| && m < |ns| && ForgesAt(ls, ns, i, m);
      var bound := |ns| + 4;
      SmallerIsSmall(bound, |ns| + |ls| + 6);
      SmallerIsSmall(m + 1, |ns| + |ls| + 6);
      SmallerIsSmall(bound + 2, |ns| + |ls| + 6);
      ForgedClimbs(ls, ns, i, m, bound);
      ForgeryHasNoCollision(ls, ns, i, m, bound);
      CommittedLeaves(ls, i, m, bound);
      var h, encs := Counting(), Committed(ls, i, m, bound);
      var proof := Forged(encs, ns, i, m);
      assert Lengths(encs) == ls && Lengths(proof) == ns;
    }
  }
}
