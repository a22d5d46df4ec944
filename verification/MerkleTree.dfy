/** The sorted-pair Merkle tree of airdrop/tools/common.py, shared by the batch airdrop and the bridge claims.
    A leaf is the double hash of an encoding; an unpaired last node is carried up unchanged. */
module MerkleTree {
  import opened Bytes
  import opened Lists

  // ----- the tree

  /** The bytes `hash_pair` feeds to the hash: the smaller node first. */
  function PairInput(a: Bytes, b: Bytes): (r: Bytes)
    ensures |r| == |a| + |b|
  {
    if Less(a, b) then a + b else b + a
  }

  function HashPair(h: Keccak, a: Bytes, b: Bytes): (r: Bytes)
    ensures |r| == 32
  {
    h(PairInput(a, b))
  }

  lemma PairInputSymmetric(a: Bytes, b: Bytes)
    ensures PairInput(a, b) == PairInput(b, a)
  {
    LessTrichotomy(a, b);
    LessTrichotomy(b, a);
  }

  lemma PairInputParts(a: Bytes, b: Bytes, c: Bytes, d: Bytes)
    requires |a| == |b| == |c| == |d| && PairInput(a, b) == PairInput(c, d)
    ensures a == c || a == d
  {
    var n := |a|;
    assert a == PairInput(a, b)[..n] || a == PairInput(a, b)[n..];
    assert PairInput(c, d)[..n] in [c, d] && PairInput(c, d)[n..] in [c, d];
  }

  /** One level up. */
  function Next(h: Keccak, level: seq<Bytes>): (r: seq<Bytes>)
    ensures |r| == (|level| + 1) / 2
  {
    if |level| <= 1 then level else [HashPair(h, level[0], level[1])] + Next(h, level[2..])
  }

  lemma {:induction false} NextAt(h: Keccak, level: seq<Bytes>, j: nat)
    requires 2 * j < |level|
    ensures Next(h, level)[j]
         == if 2 * j + 1 < |level| then HashPair(h, level[2 * j], level[2 * j + 1]) else level[2 * j]
  {
    if j > 0 {
      var rest := level[2..];
      NextAt(h, rest, j - 1);
      assert Next(h, level)[j] == Next(h, rest)[j - 1] by { hide HashPair; }
      hide Next, HashPair;
      assert rest[2 * j - 2] == level[2 * j];
      assert 2 * j + 1 < |level| ==> rest[2 * j - 1] == level[2 * j + 1];
    }
  }

  function Root(h: Keccak, leaves: seq<Bytes>): Bytes
    requires leaves != []
    decreases |leaves|
  {
    if |leaves| == 1 then leaves[0] else Root(h, Next(h, leaves))
  }

  /** Sibling of node `i` in its level, as `i ^ 1`. */
  function Sibling(i: nat): nat { if i % 2 == 0 then i + 1 else i - 1 }

  function Proof(h: Keccak, leaves: seq<Bytes>, i: nat): seq<Bytes>
    decreases |leaves|
  {
    if |leaves| <= 1 then []
    else (if Sibling(i) < |leaves| then [leaves[Sibling(i)]] else []) + Proof(h, Next(h, leaves), i / 2)
  }

  /** The node `tree_verify` ends with. */
  function Climb(h: Keccak, node: Bytes, proof: seq<Bytes>): Bytes
  {
    if proof == [] then node
    else HashPair(h, Climb(h, node, proof[..|proof| - 1]), proof[|proof| - 1])
  }

  // ----- the same, as the source computes it

  /** Every level follows from the one before it. */
  ghost predicate Chain(h: Keccak, levels: seq<seq<Bytes>>)
  {
    var n := |levels|;
    n >= 2 ==> Chain(h, levels[..n - 1]) && |levels[n - 2]| > 1 && levels[n - 1] == Next(h, levels[n - 2])
  }

  lemma {:induction false} ChainAt(h: Keccak, levels: seq<seq<Bytes>>, k: nat)
    requires Chain(h, levels) && k + 1 < |levels|
    ensures |levels[k]| > 1 && levels[k + 1] == Next(h, levels[k])
  {
    hide Next;
    if k + 2 < |levels| {
      ChainAt(h, levels[..|levels| - 1], k);
    }
  }

  /** All levels, leaves first, root last. */
  ghost predicate AreLevels(h: Keccak, levels: seq<seq<Bytes>>)
  {
    levels != [] && |levels[|levels| - 1]| == 1 && Chain(h, levels)
  }

  lemma ChainSnoc(h: Keccak, levels: seq<seq<Bytes>>, next: seq<Bytes>)
    requires levels != [] && Chain(h, levels) && |levels[|levels| - 1]| > 1
    requires next == Next(h, levels[|levels| - 1])
    ensures Chain(h, levels + [next])
  {
    hide Next;
    assert (levels + [next])[..|levels|] == levels;
  }

  lemma ChainOne(h: Keccak, leaves: seq<Bytes>)
    ensures Chain(h, [leaves])
  {
  }

  method NextLevel(h: Keccak, prev: seq<Bytes>) returns (nxt: seq<Bytes>)
    ensures nxt == Next(h, prev)
  {
    hide Next, HashPair;
    nxt := [];
    var i := 0;
    while i < |prev|
      invariant i % 2 == 0 && i <= |prev| + 1
      invariant |nxt| == i / 2
      invariant forall j :: 0 <= j < |nxt| ==> nxt[j] == Next(h, prev)[j]
    {
      NextAt(h, prev, i / 2);
      nxt := nxt + [if i + 1 < |prev| then HashPair(h, prev[i], prev[i + 1]) else prev[i]];
      i := i + 2;
    }
  }

  method TreeLevels(h: Keccak, leaves: seq<Bytes>) returns (levels: seq<seq<Bytes>>)
    requires leaves != []
    ensures AreLevels(h, levels) && levels[0] == leaves
  {
    hide Next, Chain;
    levels := [leaves];
    ChainOne(h, leaves);
    var last := leaves;
    while |last| > 1
      invariant levels != [] && levels[|levels| - 1] == last != [] && levels[0] == leaves
      invariant Chain(h, levels)
      decreases |last|
    {
      last := NextLevel(h, last);
      ChainSnoc(h, levels, last);
      levels := levels + [last];
    }
  }

  lemma {:induction false} LevelsRoot(h: Keccak, levels: seq<seq<Bytes>>, k: nat)
    requires AreLevels(h, levels) && k < |levels|
    ensures levels[k] != [] && levels[|levels| - 1][0] == Root(h, levels[k])
    decreases |levels| - k
  {
    hide Next, Chain;
    if k + 1 < |levels| {
      LevelsRoot(h, levels, k + 1);
      ChainAt(h, levels, k);
    }
  }

  method TreeProof(h: Keccak, levels: seq<seq<Bytes>>, index: nat) returns (proof: seq<Bytes>)
    requires AreLevels(h, levels)
    ensures proof == Proof(h, levels[0], index)
  {
    hide Next, Chain;
    proof := [];
    var idx, k := index, 0;
    while k < |levels| - 1
      invariant 0 <= k <= |levels| - 1
      invariant proof + Proof(h, levels[k], idx) == Proof(h, levels[0], index)
    {
      ChainAt(h, levels, k);
      var sibling := Sibling(idx);
      var step := if sibling < |levels[k]| then [levels[k][sibling]] else [];
      assert proof + Proof(h, levels[k], idx) == proof + step + Proof(h, levels[k + 1], idx / 2);
      proof := proof + step;
      idx := idx / 2;
      k := k + 1;
    }
  }

  method TreeVerify(h: Keccak, proof: seq<Bytes>, root: Bytes, leaf: Bytes) returns (ok: bool)
    ensures ok <==> Climb(h, leaf, proof) == root
  {
    var node := leaf;
    for k := 0 to |proof|
      invariant node == Climb(h, leaf, proof[..k])
    {
      assert proof[..k + 1][..k] == proof[..k];
      node := HashPair(h, node, proof[k]);
    }
    assert proof[..|proof|] == proof;
    ok := node == root;
  }

  // ----- completeness

  lemma {:induction false} ClimbCons(h: Keccak, node: Bytes, p: Bytes, rest: seq<Bytes>)
    ensures Climb(h, node, [p] + rest) == Climb(h, HashPair(h, node, p), rest)
  {
    var all := [p] + rest;
    if rest == [] {
      assert all[..0] == [];
    } else {
      assert all[..|all| - 1] == [p] + rest[..|rest| - 1];
      ClimbCons(h, node, p, rest[..|rest| - 1]);
    }
  }

  /** Smallest k with n <= 2^k: the height of the tree over n leaves. */
  function CeilLog2(n: nat): nat
  {
    if n <= 1 then 0 else 1 + CeilLog2((n + 1) / 2)
  }

  lemma {:induction false} CeilLog2Bounds(n: nat)
    requires n >= 1
    ensures n <= P2(CeilLog2(n))
    ensures n >= 2 ==> P2(CeilLog2(n) - 1) < n
  {
    if n > 1 {
      CeilLog2Bounds((n + 1) / 2);
    }
  }

  /** A node and its sibling hash to the node above them; a node without a sibling is the node above. */
  lemma StepUp(h: Keccak, level: seq<Bytes>, i: nat)
    requires i < |level| && |level| > 1
    ensures i / 2 < |Next(h, level)|
    ensures Next(h, level)[i / 2]
         == if Sibling(i) < |level| then HashPair(h, level[i], level[Sibling(i)]) else level[i]
  {
    hide Next, PairInput;
    var j := i / 2;
    NextAt(h, level, j);
    if i % 2 == 0 {
      assert i == 2 * j && Sibling(i) == i + 1;
    } else {
      assert i == 2 * j + 1 && Sibling(i) == 2 * j;
      PairInputSymmetric(level[i], level[2 * j]);
    }
  }

  /** Every generated proof verifies, and is no longer than the height of the tree. */
  lemma {:induction false} ProofVerifies(h: Keccak, leaves: seq<Bytes>, i: nat)
    requires i < |leaves|
    ensures Climb(h, leaves[i], Proof(h, leaves, i)) == Root(h, leaves)
    ensures |Proof(h, leaves, i)| <= CeilLog2(|leaves|)
    decreases |leaves|
  {
    hide Next, HashPair;
    if |leaves| > 1 {
      var up := Next(h, leaves);
      ProofVerifies(h, up, i / 2);
      StepUp(h, leaves, i);
      var rest := Proof(h, up, i / 2);
      if Sibling(i) < |leaves| {
        ClimbCons(h, leaves[i], leaves[Sibling(i)], rest);
      } else {
        assert [] + rest == rest;
      }
    }
  }

  // ----- soundness

  function Leaf(h: Keccak, enc: Bytes): (r: Bytes)
    ensures |r| == 32
  {
    h(h(enc))
  }

  function Leaves(h: Keccak, encs: seq<Bytes>): (r: seq<Bytes>)
    ensures |r| == |encs| && forall i :: 0 <= i < |r| ==> r[i] == Leaf(h, encs[i])
  {
    seq(|encs|, i requires 0 <= i < |encs| => Leaf(h, encs[i]))
  }

  /** Strings hashed to form the level above `level`. */
  ghost function PairInputs(level: seq<Bytes>): set<Bytes>
  {
    set j: nat | 2 * j + 1 < |level| && j < |level| :: PairInput(level[2 * j], level[2 * j + 1])
  }

  /** Strings hashed to form every level above `leaves`. */
  ghost function TreeInputs(h: Keccak, leaves: seq<Bytes>): set<Bytes>
    decreases |leaves|
  {
    if |leaves| <= 1 then {} else PairInputs(leaves) + TreeInputs(h, Next(h, leaves))
  }

  ghost function LeafInputs(h: Keccak, encs: seq<Bytes>): set<Bytes>
  {
    (set i | 0 <= i < |encs| :: encs[i]) + (set i | 0 <= i < |encs| :: h(encs[i]))
  }

  /** Every string hashed to commit to `encs`. */
  ghost function CommitInputs(h: Keccak, encs: seq<Bytes>): set<Bytes>
  {
    LeafInputs(h, encs) + TreeInputs(h, Leaves(h, encs))
  }

  ghost function ClimbInputs(h: Keccak, node: Bytes, proof: seq<Bytes>): set<Bytes>
  {
    if proof == [] then {}
    else
      var shorter := proof[..|proof| - 1];
      ClimbInputs(h, node, shorter) + {PairInput(Climb(h, node, shorter), proof[|proof| - 1])}
  }

  /** Every string hashed to check `proof` for `enc`. */
  ghost function VerifyInputs(h: Keccak, enc: Bytes, proof: seq<Bytes>): set<Bytes>
  {
    {enc, h(enc)} + ClimbInputs(h, Leaf(h, enc), proof)
  }

  /** A collision among the strings actually hashed, one from each side. */
  ghost predicate Collision(h: Keccak, us: set<Bytes>, vs: set<Bytes>)
  {
    exists u, v :: u in us && v in vs && u != v && h(u) == h(v)
  }

  lemma FoundCollision(h: Keccak, us: set<Bytes>, vs: set<Bytes>, u: Bytes, v: Bytes)
    requires u in us && v in vs && u != v && h(u) == h(v)
    ensures Collision(h, us, vs)
  {
  }

  ghost predicate DigestNodes(proof: seq<Bytes>)
  {
    forall k :: 0 <= k < |proof| ==> |proof[k]| == 32
  }

  lemma NextIsDigests(h: Keccak, level: seq<Bytes>)
    requires DigestNodes(level)
    ensures DigestNodes(Next(h, level))
  {
    hide Next;
    forall j | 0 <= j < |Next(h, level)| ensures |Next(h, level)[j]| == 32 {
      NextAt(h, level, j);
    }
  }

  lemma {:induction false} ClimbIsDigest(h: Keccak, node: Bytes, proof: seq<Bytes>)
    requires |node| == 32
    ensures |Climb(h, node, proof)| == 32
  {
  }

  // ----- lengths

  function Lengths(nodes: seq<Bytes>): (ls: seq<nat>)
    ensures |ls| == |nodes| && forall k :: 0 <= k < |ls| ==> ls[k] == |nodes[k]|
  {
    seq(|nodes|, k requires 0 <= k < |nodes| => |nodes[k]|)
  }

  /** How many siblings leaf `i` of `n` has on its way up. */
  function PathLength(n: nat, i: nat): nat
    decreases n
  {
    if n <= 1 then 0 else (if Sibling(i) < n then 1 else 0) + PathLength((n + 1) / 2, i / 2)
  }

  /** The lengths with which a proof can reach leaf `i` from a string that was not committed to: an empty node at `m`
      (so that a digest is hashed once more), right after a node that makes 32 bytes as long as encoding `i`, or first
      where the encoding itself has 32 bytes; and after it exactly the 32-byte nodes of the leaf's path. */
  predicate ForgesAt(encs: seq<nat>, nodes: seq<nat>, i: nat, m: nat)
  {
    && i < |encs| && m < |nodes| && nodes[m] == 0
    && (if m == 0 then encs[i] == 32 else nodes[m - 1] + 32 == encs[i])
    && (forall k :: m < k < |nodes| ==> nodes[k] == 32)
    && |nodes| == m + 1 + PathLength(|encs|, i)
  }

  predicate Forgeable(encs: seq<nat>, nodes: seq<nat>)
  {
    exists i, m :: 0 <= i < |encs| && 0 <= m < |nodes| && ForgesAt(encs, nodes, i, m)
  }

  /** In particular no proof without an empty node has such lengths. */
  lemma NoEmptyNode(encs: seq<nat>, nodes: seq<nat>)
    requires forall k :: 0 <= k < |nodes| ==> nodes[k] != 0
    ensures !Forgeable(encs, nodes)
  {
  }

  // ----- a climb, level by level

  /** The climb of `proof` is at node `i` of the level after `k` nodes, and the rest of it has the lengths of the way up. */
  ghost predicate EntersAt(h: Keccak, level: seq<Bytes>, node: Bytes, proof: seq<Bytes>, i: nat, k: nat)
  {
    && i < |level| && k <= |proof| && Climb(h, node, proof[..k]) == level[i]
    && DigestNodes(proof[k..]) && |proof| == k + PathLength(|level|, i)
  }

  ghost predicate Enters(h: Keccak, level: seq<Bytes>, node: Bytes, proof: seq<Bytes>)
  {
    exists i, k :: 0 <= i < |level| && 0 <= k <= |proof| && EntersAt(h, level, node, proof, i, k)
  }

  /** If a climb from a leaf is at a node one level up, it came through this level, or there is a collision. */
  lemma SoundStep(h: Keccak, level: seq<Bytes>, j: nat, enc: Bytes, proof: seq<Bytes>, k: nat)
    requires |level| > 1 && DigestNodes(level) && EntersAt(h, Next(h, level), Leaf(h, enc), proof, j, k)
    ensures Collision(h, PairInputs(level), VerifyInputs(h, enc, proof))
         || Enters(h, level, Leaf(h, enc), proof)
  {
    hide Next, Less, PairInput, HashPair, Climb, PairInputs, VerifyInputs, Collision, Leaf;
    NextAt(h, level, j);
    if 2 * j + 1 >= |level| {
      assert EntersAt(h, level, Leaf(h, enc), proof, 2 * j, k);
    } else {
      SoundPair(h, level, j, enc, proof, k);
    }
  }

  lemma PairIsInput(level: seq<Bytes>, j: nat)
    requires 2 * j + 1 < |level|
    ensures PairInput(level[2 * j], level[2 * j + 1]) in PairInputs(level)
  {
  }

  /** The case of a node hashed from a pair. */
  lemma SoundPair(h: Keccak, level: seq<Bytes>, j: nat, enc: Bytes, proof: seq<Bytes>, k: nat)
    requires DigestNodes(level) && 2 * j + 1 < |level| && k <= |proof|
    requires Climb(h, Leaf(h, enc), proof[..k]) == HashPair(h, level[2 * j], level[2 * j + 1])
    requires DigestNodes(proof[k..]) && |proof| == k + PathLength(|Next(h, level)|, j)
    ensures Collision(h, PairInputs(level), VerifyInputs(h, enc, proof))
         || Enters(h, level, Leaf(h, enc), proof)
  {
    hide Less, PairInput, PairInputs, Collision, Next, VerifyInputs;
    var a, b := level[2 * j], level[2 * j + 1];
    var us, vs := PairInputs(level), VerifyInputs(h, enc, proof);
    PairIsInput(level, j);
    HashedOnTheWay(h, enc, proof, k);
    if k == 0 {
      FoundCollision(h, us, vs, PairInput(a, b), h(enc));
    } else {
      var node, p := Climb(h, Leaf(h, enc), proof[..k - 1]), proof[k - 1];
      if PairInput(node, p) == PairInput(a, b) {
        assert |node| + |p| == 64;
        PairInputParts(node, p, a, b);
        assert proof[k - 1..] == [p] + proof[k..];
        var i := if node == a then 2 * j else 2 * j + 1;
        assert EntersAt(h, level, Leaf(h, enc), proof, i, k - 1);
      } else {
        FoundCollision(h, us, vs, PairInput(a, b), PairInput(node, p));
      }
    }
  }

  /** What the last step of a climb hashes. */
  lemma HashedOnTheWay(h: Keccak, enc: Bytes, proof: seq<Bytes>, k: nat)
    requires k <= |proof|
    ensures enc in VerifyInputs(h, enc, proof) && h(enc) in VerifyInputs(h, enc, proof)
    ensures |Climb(h, Leaf(h, enc), proof[..k])| == 32
    ensures k == 0 ==> Climb(h, Leaf(h, enc), proof[..k]) == h(h(enc))
    ensures k > 0 ==>
      var node := Climb(h, Leaf(h, enc), proof[..k - 1]);
      && |node| == 32 && PairInput(node, proof[k - 1]) in VerifyInputs(h, enc, proof)
      && Climb(h, Leaf(h, enc), proof[..k]) == h(PairInput(node, proof[k - 1]))
  {
    hide PairInput;
    VerifyInputsPrefix(h, enc, proof, k);
    ClimbIsDigest(h, Leaf(h, enc), proof[..k]);
    if k > 0 {
      assert proof[..k][..k - 1] == proof[..k - 1];
      ClimbIsDigest(h, Leaf(h, enc), proof[..k - 1]);
    }
  }

  lemma {:induction false} VerifyInputsPrefix(h: Keccak, enc: Bytes, proof: seq<Bytes>, k: nat)
    requires k <= |proof|
    ensures VerifyInputs(h, enc, proof[..k]) <= VerifyInputs(h, enc, proof)
    decreases |proof|
  {
    if k < |proof| {
      var shorter := proof[..|proof| - 1];
      assert shorter[..k] == proof[..k];
      VerifyInputsPrefix(h, enc, shorter, k);
    } else {
      assert proof[..k] == proof;
    }
  }

  lemma CollisionMonotone(h: Keccak, us: set<Bytes>, vs: set<Bytes>, us': set<Bytes>, vs': set<Bytes>)
    requires Collision(h, us, vs) && us <= us' && vs <= vs'
    ensures Collision(h, us', vs')
  {
  }

  /** A climb that ends at the root enters the leaf level, or exhibits a collision. */
  lemma {:induction false} SoundTree(h: Keccak, level: seq<Bytes>, enc: Bytes, proof: seq<Bytes>)
    requires level != [] && DigestNodes(level)
    requires Climb(h, Leaf(h, enc), proof) == Root(h, level)
    ensures Collision(h, TreeInputs(h, level), VerifyInputs(h, enc, proof))
         || Enters(h, level, Leaf(h, enc), proof)
    decreases |level|
  {
    hide Next, Climb, PairInputs, VerifyInputs, Collision, Leaf;
    if |level| == 1 {
      assert proof[..|proof|] == proof;
      assert EntersAt(h, level, Leaf(h, enc), proof, 0, |proof|);
    } else {
      hide Enters;
      var up := Next(h, level);
      NextIsDigests(h, level);
      SoundTree(h, up, enc, proof);
      var vs := VerifyInputs(h, enc, proof);
      if Collision(h, TreeInputs(h, up), vs) {
        CollisionMonotone(h, TreeInputs(h, up), vs, TreeInputs(h, level), vs);
      } else {
        SoundEntered(h, level, enc, proof);
      }
    }
  }

  lemma SoundEntered(h: Keccak, level: seq<Bytes>, enc: Bytes, proof: seq<Bytes>)
    requires |level| > 1 && DigestNodes(level)
    requires Enters(h, Next(h, level), Leaf(h, enc), proof)
    ensures Collision(h, TreeInputs(h, level), VerifyInputs(h, enc, proof))
         || Enters(h, level, Leaf(h, enc), proof)
  {
    hide EntersAt, Leaf, PairInputs, VerifyInputs, Collision;
    var j: nat, k: nat :| j < |Next(h, level)| && k <= |proof| && EntersAt(h, Next(h, level), Leaf(h, enc), proof, j, k);
    hide Enters;
    SoundStep(h, level, j, enc, proof, k);
    var vs := VerifyInputs(h, enc, proof);
    if Collision(h, PairInputs(level), vs) {
      CollisionMonotone(h, PairInputs(level), vs, TreeInputs(h, level), vs);
    }
  }

  /** A climb that is at a leaf after `k` nodes started from its encoding, or there is a collision, or the lengths are
      those of a forgery. */
  lemma SoundLeaf(h: Keccak, encs: seq<Bytes>, i: nat, enc: Bytes, proof: seq<Bytes>, k: nat)
    requires EntersAt(h, Leaves(h, encs), Leaf(h, enc), proof, i, k)
    ensures || enc in encs
            || Collision(h, LeafInputs(h, encs), VerifyInputs(h, enc, proof))
            || (k > 0 && ForgesAt(Lengths(encs), Lengths(proof), i, k - 1))
  {
    hide Less, PairInput, Collision, VerifyInputs, Climb;
    var us, vs := LeafInputs(h, encs), VerifyInputs(h, enc, proof);
    var e := encs[i];
    assert e in us && h(e) in us;
    HashedOnTheWay(h, enc, proof, k);
    if k == 0 {
      if h(e) != h(enc) {
        FoundCollision(h, us, vs, h(e), h(enc));
      } else if e != enc {
        FoundCollision(h, us, vs, e, enc);
      }
    } else {
      HashedOnTheWay(h, enc, proof, k - 1);
      var node, p := Climb(h, Leaf(h, enc), proof[..k - 1]), proof[k - 1];
      if h(e) != PairInput(node, p) {
        FoundCollision(h, us, vs, h(e), PairInput(node, p));
      } else {
        EmptyPair(node, p);
        var before := if k == 1 then h(enc) else PairInput(Climb(h, Leaf(h, enc), proof[..k - 2]), proof[k - 2]);
        if e != before {
          FoundCollision(h, us, vs, e, before);
        } else {
          RestIsPath(proof, k);
        }
      }
    }
  }

  lemma EmptyPair(node: Bytes, p: Bytes)
    requires |node| == 32 && |PairInput(node, p)| == 32
    ensures p == [] && PairInput(node, p) == node
  {
  }

  lemma RestIsPath(proof: seq<Bytes>, k: nat)
    requires k <= |proof| && DigestNodes(proof[k..])
    ensures forall j :: k <= j < |proof| ==> |proof[j]| == 32
  {
    forall j | k <= j < |proof| ensures |proof[j]| == 32 {
      assert proof[k..][j - k] == proof[j];
    }
  }

  /** `tree_verify` accepts an encoding against the root of a list only if the list holds it, or the strings hashed
      contain a collision; unless the proof's nodes have the lengths of a forgery. */
  lemma TreeSound(h: Keccak, encs: seq<Bytes>, enc: Bytes, proof: seq<Bytes>)
    requires encs != [] && !Forgeable(Lengths(encs), Lengths(proof))
    requires Climb(h, Leaf(h, enc), proof) == Root(h, Leaves(h, encs))
    ensures enc in encs || Collision(h, CommitInputs(h, encs), VerifyInputs(h, enc, proof))
  {
    hide Climb, TreeInputs, LeafInputs, VerifyInputs, Collision, EntersAt, ForgesAt;
    var leaves, vs := Leaves(h, encs), VerifyInputs(h, enc, proof);
    SoundTree(h, leaves, enc, proof);
    if Collision(h, TreeInputs(h, leaves), vs) {
      CollisionMonotone(h, TreeInputs(h, leaves), vs, CommitInputs(h, encs), vs);
    } else {
      var i: nat, k: nat :| i < |leaves| && k <= |proof| && EntersAt(h, leaves, Leaf(h, enc), proof, i, k);
      SoundLeaf(h, encs, i, enc, proof, k);
      if enc !in encs {
        CollisionMonotone(h, LeafInputs(h, encs), vs, CommitInputs(h, encs), vs);
      }
    }
  }

  // ----- equal roots

  lemma {:induction false} ClimbInputsCons(h: Keccak, node: Bytes, p: Bytes, rest: seq<Bytes>)
    ensures ClimbInputs(h, node, [p] + rest) == {PairInput(node, p)} + ClimbInputs(h, HashPair(h, node, p), rest)
  {
    hide PairInput;
    var all := [p] + rest;
    if rest == [] {
      assert all[..0] == [];
    } else {
      assert all[..|all| - 1] == [p] + rest[..|rest| - 1];
      ClimbInputsCons(h, node, p, rest[..|rest| - 1]);
      ClimbCons(h, node, p, rest[..|rest| - 1]);
    }
  }

  lemma SiblingInput(level: seq<Bytes>, i: nat)
    requires i < |level| && Sibling(i) < |level|
    ensures PairInput(level[i], level[Sibling(i)]) in PairInputs(level)
  {
    hide PairInput;
    PairInputSymmetric(level[i], level[Sibling(i)]);
    PairIsInput(level, i / 2);
  }

  /** Checking a generated proof hashes nothing that building the tree did not hash. */
  lemma {:induction false} ProofInputs(h: Keccak, leaves: seq<Bytes>, i: nat)
    requires i < |leaves|
    ensures ClimbInputs(h, leaves[i], Proof(h, leaves, i)) <= TreeInputs(h, leaves)
    decreases |leaves|
  {
    hide Next, PairInput, HashPair, PairInputs, ClimbInputs;
    if |leaves| > 1 {
      var up := Next(h, leaves);
      ProofInputs(h, up, i / 2);
      StepUp(h, leaves, i);
      var rest := Proof(h, up, i / 2);
      if Sibling(i) < |leaves| {
        ClimbInputsCons(h, leaves[i], leaves[Sibling(i)], rest);
        SiblingInput(leaves, i);
      } else {
        assert [] + rest == rest;
      }
    } else {
      NoInputs(h, leaves[i]);
    }
  }

  lemma NoInputs(h: Keccak, node: Bytes)
    ensures ClimbInputs(h, node, []) == {}
  {
  }

  lemma {:induction false} ProofIsDigests(h: Keccak, leaves: seq<Bytes>, i: nat)
    requires DigestNodes(leaves)
    ensures DigestNodes(Proof(h, leaves, i))
    decreases |leaves|
  {
    hide Next;
    if |leaves| > 1 {
      NextIsDigests(h, leaves);
      ProofIsDigests(h, Next(h, leaves), i / 2);
    }
  }

  /** Whatever one list commits to, every list with the same root commits to, unless the two trees
      exhibit a collision. */
  lemma RootCommits(h: Keccak, xs: seq<Bytes>, ys: seq<Bytes>, i: nat)
    requires i < |xs| && ys != []
    requires Root(h, Leaves(h, xs)) == Root(h, Leaves(h, ys))
    ensures xs[i] in ys || Collision(h, CommitInputs(h, ys), CommitInputs(h, xs))
  {
    hide Climb, ClimbInputs, TreeInputs, Collision, Proof, Root;
    var leaves := Leaves(h, xs);
    var proof := Proof(h, leaves, i);
    ProofIsDigests(h, leaves, i);
    NoEmptyNode(Lengths(ys), Lengths(proof));
    ProofVerifies(h, leaves, i);
    TreeSound(h, ys, xs[i], proof);
    ProofInputs(h, leaves, i);
    assert VerifyInputs(h, xs[i], proof) <= CommitInputs(h, xs);
    if xs[i] !in ys {
      CollisionMonotone(h, CommitInputs(h, ys), VerifyInputs(h, xs[i], proof),
                        CommitInputs(h, ys), CommitInputs(h, xs));
    }
  }
}
