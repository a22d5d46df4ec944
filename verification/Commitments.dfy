/** What the roots commit to: the airdrop's batch list (airdrop/tools/common.py) and the bridge claim rows
    (bridge-claims/tools/claim_tree.py), with the claim tree's chunked builder. */
module Commitments {
  import opened Bytes
  import opened Options
  import opened AbiReader
  import opened MerkleTree
  import opened Lists

  // ----- batches

  datatype Batch = Batch(index: nat, recipients: seq<nat>, amounts: seq<nat>)

  /** The words of `abi.encode(uint256 batchIndex, address[] recipients, uint256[] amounts)`. */
  function BatchWords(b: Batch): seq<nat>
  {
    var n := |b.recipients|;
    [b.index, 96, 128 + 32 * n, n] + b.recipients + [n] + b.amounts
  }

  /** The batches `abi_encode_batch` does not raise on. */
  predicate Encodable(b: Batch)
  {
    |b.recipients| == |b.amounts| && AllFit(BatchWords(b))
  }

  function EncodeBatch(b: Batch): Bytes
    requires Encodable(b)
  {
    Words(BatchWords(b))
  }

  lemma EncodeBatchInjective(a: Batch, b: Batch)
    requires Encodable(a) && Encodable(b) && EncodeBatch(a) == EncodeBatch(b)
    ensures a == b
  {
    var u, v := BatchWords(a), BatchWords(b);
    WordsInjective(u, v);
    var n := |a.recipients|;
    assert u[3] == n && v[3] == |b.recipients|;
    assert u[4..4 + n] == a.recipients && v[4..4 + n] == b.recipients;
    assert u[5 + n..] == a.amounts && v[5 + n..] == b.amounts;
  }

  /** What a contract decodes from the encoding of a batch, through its two offset words. */
  function ReadBatch(enc: Bytes): Option<Batch>
  {
    match (ReadArray(enc, WordAt(enc, 32)), ReadArray(enc, WordAt(enc, 64)))
    case (Some(recipients), Some(amounts)) => Some(Batch(WordAt(enc, 0), recipients, amounts))
    case _ => None
  }

  /** It decodes the batch that was encoded. */
  lemma BatchReadsBack(b: Batch)
    requires Encodable(b)
    ensures ReadBatch(EncodeBatch(b)) == Some(b)
  {
    hide BatchWords, Words, WordAt, ReadArray, AllFit;
    var n, vs := |b.recipients|, BatchWords(b);
    BatchWordsAre(b);
    HeadWords(vs);
    ArrayIs(vs, 3);
    ArrayIs(vs, 4 + n);
    assert 32 * 3 == 96 && 32 * (4 + n) == 128 + 32 * n;
  }

  lemma HeadWords(vs: seq<nat>)
    requires AllFit(vs) && |vs| >= 3
    ensures WordAt(Words(vs), 0) == vs[0] && WordAt(Words(vs), 32) == vs[1] && WordAt(Words(vs), 64) == vs[2]
  {
    hide Words, WordAt, AllFit;
    WordsAt(vs, 0);
    WordsAt(vs, 1);
    WordsAt(vs, 2);
  }

  lemma BatchWordsAre(b: Batch)
    requires |b.recipients| == |b.amounts|
    ensures var n, vs := |b.recipients|, BatchWords(b);
            && |vs| == 5 + 2 * n && vs[0] == b.index && vs[1] == 96 && vs[2] == 128 + 32 * n
            && vs[3] == n && vs[4..4 + n] == b.recipients && vs[4 + n] == n && vs[5 + n..5 + n + n] == b.amounts
  {
  }

  /** A distribution: batch i carries index i, as `write_run` numbers them. */
  ghost predicate Distribution(bs: seq<Batch>)
  {
    bs != [] && forall i :: 0 <= i < |bs| ==> Encodable(bs[i]) && bs[i].index == i
  }

  ghost function BatchEncodings(bs: seq<Batch>): (r: seq<Bytes>)
    requires Distribution(bs)
    ensures |r| == |bs| && forall i :: 0 <= i < |bs| ==> r[i] == EncodeBatch(bs[i])
  {
    seq(|bs|, i requires 0 <= i < |bs| => EncodeBatch(bs[i]))
  }

  ghost function BatchRoot(h: Keccak, bs: seq<Batch>): Bytes
    requires Distribution(bs)
  {
    Root(h, Leaves(h, BatchEncodings(bs)))
  }

  lemma EncodingIsListed(bs: seq<Batch>, x: Batch)
    requires Distribution(bs) && Encodable(x) && EncodeBatch(x) in BatchEncodings(bs)
    ensures x.index < |bs| && bs[x.index] == x
  {
    hide EncodeBatch;
    var i :| 0 <= i < |bs| && BatchEncodings(bs)[i] == EncodeBatch(x);
    EncodeBatchInjective(x, bs[i]);
  }

  /** A batch the tree accepts is the list's batch of that index, or the strings hashed collide; unless the proof's nodes
      have the lengths of a forgery, which takes an empty node. */
  lemma BatchSound(h: Keccak, bs: seq<Batch>, x: Batch, proof: seq<Bytes>)
    requires Distribution(bs) && Encodable(x) && !Forgeable(Lengths(BatchEncodings(bs)), Lengths(proof))
    requires Climb(h, Leaf(h, EncodeBatch(x)), proof) == BatchRoot(h, bs)
    ensures (x.index < |bs| && bs[x.index] == x)
         || Collision(h, CommitInputs(h, BatchEncodings(bs)), VerifyInputs(h, EncodeBatch(x), proof))
  {
    hide EncodeBatch, Collision, CommitInputs, VerifyInputs, Climb, Forgeable;
    TreeSound(h, BatchEncodings(bs), EncodeBatch(x), proof);
    if EncodeBatch(x) in BatchEncodings(bs) {
      EncodingIsListed(bs, x);
    }
  }

  /** Every listed batch is accepted with its generated proof, of 32-byte nodes. */
  lemma BatchComplete(h: Keccak, bs: seq<Batch>, i: nat)
    requires Distribution(bs) && i < |bs|
    ensures var leaves := Leaves(h, BatchEncodings(bs));
            && Climb(h, Leaf(h, EncodeBatch(bs[i])), Proof(h, leaves, i)) == BatchRoot(h, bs)
            && |Proof(h, leaves, i)| <= CeilLog2(|bs|) && DigestNodes(Proof(h, leaves, i))
  {
    ProofVerifies(h, Leaves(h, BatchEncodings(bs)), i);
    ProofIsDigests(h, Leaves(h, BatchEncodings(bs)), i);
  }

  /** Equal roots mean equal lists, or a collision between the two trees. */
  lemma EqualRootsEqualLists(h: Keccak, bs: seq<Batch>, cs: seq<Batch>)
    requires Distribution(bs) && Distribution(cs) && BatchRoot(h, bs) == BatchRoot(h, cs)
    ensures bs == cs
         || Collision(h, CommitInputs(h, BatchEncodings(bs)), CommitInputs(h, BatchEncodings(cs)))
         || Collision(h, CommitInputs(h, BatchEncodings(cs)), CommitInputs(h, BatchEncodings(bs)))
  {
    hide EncodeBatch, Encodable, Collision, CommitInputs, Root;
    var us, vs := BatchEncodings(bs), BatchEncodings(cs);
    if !Collision(h, CommitInputs(h, us), CommitInputs(h, vs)) && !Collision(h, CommitInputs(h, vs), CommitInputs(h, us)) {
      RootExtends(h, bs, cs);
      RootExtends(h, cs, bs);
    }
  }

  /** A list with the same root starts with the same batches. */
  lemma RootExtends(h: Keccak, bs: seq<Batch>, cs: seq<Batch>)
    requires Distribution(bs) && Distribution(cs) && BatchRoot(h, bs) == BatchRoot(h, cs)
    requires !Collision(h, CommitInputs(h, BatchEncodings(cs)), CommitInputs(h, BatchEncodings(bs)))
    ensures bs <= cs
  {
    hide EncodeBatch, Encodable, Collision, CommitInputs, Root;
    var us, vs := BatchEncodings(bs), BatchEncodings(cs);
    forall i | 0 <= i < |bs| ensures i < |cs| && bs[i] == cs[i] {
      RootCommits(h, us, vs, i);
      EncodingIsListed(cs, bs[i]);
    }
    var last := |bs| - 1;
    RootCommits(h, us, vs, last);
    EncodingIsListed(cs, bs[last]);
  }

  // ----- why proof nodes must be digests

  lemma {:induction false} ZeroPrefixIsLess(z: Bytes, b: Bytes)
    requires |b| <= |z| && (forall i :: 0 <= i < |b| ==> z[i] == 0)
    requires exists i :: 0 <= i < |b| && b[i] != 0
    ensures Less(z, b)
  {
    var i :| 0 <= i < |b| && b[i] != 0;
    if b[0] == 0 {
      assert b[1..][i - 1] == b[i];
      ZeroPrefixIsLess(z[1..], b[1..]);
    }
  }

  lemma {:induction false} WordZero(n: nat, i: nat)
    requires i < n
    ensures 0 < Pow256(n) && ToBytes(0, n)[i] == 0
  {
    if i < n - 1 {
      WordZero(n - 1, i);
    }
  }

  /** The words of a batch that pays the address `r` alone, before its amount. */
  ghost predicate IsFront(front: seq<nat>, r: nat) { front == [0, 96, 160, 1, r, 1] && 0 < r < 3 }

  lemma OneBatchEncoding(leaf: Bytes, front: seq<nat>, r: nat)
    requires |leaf| == 32 && IsFront(front, r)
    ensures AllFit(front)
    ensures var y := Batch(0, [r], [FromBytes(leaf)]); Encodable(y) && EncodeBatch(y) == Words(front) + leaf
  {
    hide Words, Pow256, FromBytes, ToBytes, IsFront, BatchWords, AllFit;
    var y, v := Batch(0, [r], [FromBytes(leaf)]), FromBytes(leaf);
    ToFromBytes(leaf);
    FrontFits(front, r);
    OneWord(v);
    FrontWords(v, front, r);
    WordsConcat(front, [v]);
  }

  lemma FrontFits(front: seq<nat>, r: nat)
    requires IsFront(front, r)
    ensures AllFit(front)
  {
    SmallFits();
    hide Fits;
  }

  lemma FrontWords(v: nat, front: seq<nat>, r: nat)
    requires IsFront(front, r)
    ensures BatchWords(Batch(0, [r], [v])) == front + [v]
  {
  }

  lemma OneWord(v: nat)
    requires Fits(v)
    ensures AllFit([v]) && Words([v]) == Word(v)
  {
    hide Pow256;
    assert [v][1..] == [];
  }

  lemma FrontIsLess(leaf: Bytes, front: seq<nat>, r: nat)
    requires |leaf| == 32 && leaf != Zeros(32) && IsFront(front, r) && AllFit(front)
    ensures PairInput(leaf, Words(front)) == Words(front) + leaf
  {
    var p := Words(front);
    assert p[..32] == Word(front[0]);
    forall i | 0 <= i < 32 ensures p[i] == 0 { WordZero(32, i); assert p[i] == p[..32][i]; }
    hide Words, Word;
    assert exists i :: 0 <= i < 32 && leaf[i] != Zeros(32)[i];
    ZeroPrefixIsLess(p, leaf);
    LessTrichotomy(p, leaf);
  }

  /** `tree_verify` does not check the length of proof nodes (the contract's `bytes32[]` does). For every batch there is a
      list that does not hold it, of one batch, and a proof that is accepted: a node of 192 bytes and an empty one. */
  lemma NodeLengthMatters(h: Keccak, x: Batch) returns (y: Batch, proof: seq<Bytes>)
    requires Encodable(x) && Leaf(h, EncodeBatch(x)) != Zeros(32)
    ensures Distribution([y]) && x != y && Lengths(proof) == [192, 0]
    ensures Climb(h, Leaf(h, EncodeBatch(x)), proof) == BatchRoot(h, [y])
  {
    var leaf := Leaf(h, EncodeBatch(x));
    var r := if x.recipients == [1] then 2 else 1;
    var front := [0, 96, 160, 1, r, 1];
    assert IsFront(front, r);
    OneBatchEncoding(leaf, front, r);
    FrontIsLess(leaf, front, r);
    y := Batch(0, [r], [FromBytes(leaf)]);
    var p := Words(front);
    hide Words, EncodeBatch, Encodable, Less, IsFront;
    proof := [p, []];
    assert proof[..1] == [p];
    assert Climb(h, leaf, [p]) == h(EncodeBatch(y));
    assert PairInput(h(EncodeBatch(y)), []) == h(EncodeBatch(y));
    assert |proof[0]| == 192;
    var encs := BatchEncodings([y]);
    assert Leaves(h, encs)[0] == Leaf(h, EncodeBatch(y));
  }

  // ----- claim rows

  datatype Row = Row(index: nat, account: nat, token: nat, amount: nat)

  function RowWords(r: Row): seq<nat> { [r.index, r.account, r.token, r.amount] }

  /** What a contract decodes from the encoding of a row: `abi.encode(index, account, token, amount)`. */
  function ReadRow(enc: Bytes): Row { Row(WordAt(enc, 0), WordAt(enc, 32), WordAt(enc, 64), WordAt(enc, 96)) }

  lemma RowReadsBack(r: Row)
    requires AllFit(RowWords(r))
    ensures |Words(RowWords(r))| == 128 && ReadRow(Words(RowWords(r))) == r
  {
    hide Words, WordAt;
    WordsAt(RowWords(r), 0);
    WordsAt(RowWords(r), 1);
    WordsAt(RowWords(r), 2);
    WordsAt(RowWords(r), 3);
  }

  /** A claim list: row i carries index i, so leaves cannot be permuted. */
  ghost predicate ClaimList(rows: seq<Row>)
  {
    rows != [] && forall i :: 0 <= i < |rows| ==> AllFit(RowWords(rows[i])) && rows[i].index == i
  }

  ghost function RowEncodings(rows: seq<Row>): (r: seq<Bytes>)
    requires ClaimList(rows)
    ensures |r| == |rows| && forall i :: 0 <= i < |rows| ==> r[i] == Words(RowWords(rows[i]))
  {
    seq(|rows|, i requires 0 <= i < |rows| => Words(RowWords(rows[i])))
  }

  /** A row the tree accepts is the list's row of that index, or the strings hashed collide. */
  lemma RowSound(h: Keccak, rows: seq<Row>, x: Row, proof: seq<Bytes>)
    requires ClaimList(rows) && AllFit(RowWords(x)) && !Forgeable(Lengths(RowEncodings(rows)), Lengths(proof))
    requires Climb(h, Leaf(h, Words(RowWords(x))), proof) == Root(h, Leaves(h, RowEncodings(rows)))
    ensures (x.index < |rows| && rows[x.index] == x)
         || Collision(h, CommitInputs(h, RowEncodings(rows)), VerifyInputs(h, Words(RowWords(x)), proof))
  {
    hide Words, Collision, CommitInputs, VerifyInputs, Climb, Forgeable;
    var encs, enc := RowEncodings(rows), Words(RowWords(x));
    TreeSound(h, encs, enc, proof);
    if enc in encs {
      var i :| 0 <= i < |encs| && encs[i] == enc;
      WordsInjective(RowWords(x), RowWords(rows[i]));
      var u, v := RowWords(x), RowWords(rows[i]);
      assert u[0] == v[0] && u[1] == v[1] && u[2] == v[2] && u[3] == v[3];
    }
  }

  // ----- the chunked builder of claim_tree.levels

  function Join(nodes: seq<Bytes>): (r: Bytes)
  {
    if nodes == [] then [] else nodes[0] + Join(nodes[1..])
  }

  lemma {:induction false} JoinConcat(u: seq<Bytes>, v: seq<Bytes>)
    ensures Join(u + v) == Join(u) + Join(v)
  {
    if u == [] {
      assert u + v == v;
    } else {
      JoinConcat(u[1..], v);
      assert (u + v)[1..] == u[1..] + v;
      Associative(u[0], Join(u[1..]), Join(v));
    }
  }

  /** `_split`: the blob cut into 32-byte nodes. */
  function Split(blob: Bytes): seq<Bytes>
  {
    if |blob| <= 32 then (if blob == [] then [] else [blob]) else [blob[..32]] + Split(blob[32..])
  }

  lemma {:induction false} SplitJoin(nodes: seq<Bytes>)
    requires DigestNodes(nodes)
    ensures Split(Join(nodes)) == nodes
  {
    if nodes == [] {
    } else {
      SplitJoin(nodes[1..]);
      var blob := Join(nodes);
      assert blob[..32] == nodes[0] && blob[32..] == Join(nodes[1..]);
      if nodes[1..] == [] {
        assert blob == nodes[0] && nodes == [nodes[0]];
      } else {
        assert |Join(nodes[1..])| >= |nodes[1]|;
      }
    }
  }

  lemma NextConcat(h: Keccak, u: seq<Bytes>, v: seq<Bytes>)
    requires |u| % 2 == 0
    ensures Next(h, u + v) == Next(h, u) + Next(h, v)
  {
    hide Next, HashPair;
    var whole, parts := Next(h, u + v), Next(h, u) + Next(h, v);
    var half := |u| / 2;
    forall j | 0 <= j < |whole| ensures whole[j] == parts[j] {
      NextAt(h, u + v, j);
      if j < half {
        NextAt(h, u, j);
      } else {
        NextAt(h, v, j - half);
        assert 2 * (j - half) == 2 * j - |u|;
      }
    }
  }

  /** `_pair_chunk`: hash the pairs of a blob of nodes. */
  method PairChunk(h: Keccak, ghost nodes: seq<Bytes>, blob: Bytes) returns (hashed: Bytes)
    requires DigestNodes(nodes) && |nodes| % 2 == 0 && blob == Join(nodes)
    ensures hashed == Join(Next(h, nodes))
  {
    hide Next, HashPair;
    hashed := [];
    ghost var k := 0;
    var rest := blob;
    assert nodes[0..] == nodes && nodes[..0] == [];
    EmptyNext(h);
    while |rest| > 0
      invariant 0 <= k <= |nodes| && k % 2 == 0
      invariant rest == Join(nodes[k..])
      invariant hashed == Join(Next(h, nodes[..k]))
    {
      TakePair(h, nodes, k);
      hashed := hashed + HashPair(h, rest[..32], rest[32..64]);
      rest := rest[64..];
      k := k + 2;
    }
    JoinNonempty(nodes[k..]);
    assert nodes[..k] == nodes;
  }

  lemma EmptyNext(h: Keccak)
    ensures Join(Next(h, [])) == []
  {
  }

  lemma {:induction false} JoinNonempty(nodes: seq<Bytes>)
    requires DigestNodes(nodes)
    ensures |Join(nodes)| == 32 * |nodes|
  {
    if nodes != [] {
      JoinNonempty(nodes[1..]);
    }
  }

  lemma TakePair(h: Keccak, nodes: seq<Bytes>, k: nat)
    requires DigestNodes(nodes) && |nodes| % 2 == 0 && k <= |nodes| && k % 2 == 0 && Join(nodes[k..]) != []
    ensures k + 2 <= |nodes| && |Join(nodes[k..])| >= 64
    ensures var rest := Join(nodes[k..]);
            && rest[64..] == Join(nodes[k + 2..])
            && Join(Next(h, nodes[..k + 2])) == Join(Next(h, nodes[..k])) + HashPair(h, rest[..32], rest[32..64])
  {
    hide HashPair;
    JoinNonempty(nodes[k..]);
    var pair, tail := nodes[k..k + 2], nodes[k + 2..];
    assert nodes[k..] == pair + tail;
    JoinConcat(pair, tail);
    assert pair[1..] == [pair[1]];
    assert Join(pair) == pair[0] + pair[1] by { assert Join(pair[1..]) == pair[1]; }
    var rest := Join(nodes[k..]);
    assert rest[..32] == pair[0] && rest[32..64] == pair[1] && rest[64..] == Join(tail);
    assert nodes[..k + 2] == nodes[..k] + pair;
    NextConcat(h, nodes[..k], pair);
    assert pair[2..] == [];
    assert Next(h, pair) == [HashPair(h, pair[0], pair[1])];
    JoinConcat(Next(h, nodes[..k]), Next(h, pair));
    assert Join([HashPair(h, pair[0], pair[1])]) == HashPair(h, pair[0], pair[1]);
  }

  lemma CarryUp(h: Keccak, level: seq<Bytes>, paired: nat)
    requires paired % 2 == 0 && (|level| == paired || |level| == paired + 1)
    ensures Next(h, level)
         == Next(h, level[..paired]) + if paired < |level| then [level[|level| - 1]] else []
  {
    assert level == level[..paired] + level[paired..];
    NextConcat(h, level[..paired], level[paired..]);
    assert Next(h, level[paired..]) == level[paired..];
    hide *;
    assert paired < |level| ==> level[paired..] == [level[|level| - 1]];
  }

  lemma NextPart(h: Keccak, level: seq<Bytes>, i: nat, to: nat)
    requires i <= to <= |level| && i % 2 == 0
    ensures Join(Next(h, level[..to])) == Join(Next(h, level[..i])) + Join(Next(h, level[i..to]))
  {
    assert level[..to] == level[..i] + level[i..to];
    NextConcat(h, level[..i], level[i..to]);
    JoinConcat(Next(h, level[..i]), Next(h, level[i..to]));
  }

  method PairPart(h: Keccak, nodes: seq<Bytes>, i: nat, to: nat) returns (hashed: Bytes)
    requires DigestNodes(nodes) && i <= to <= |nodes| && i % 2 == 0 && to % 2 == 0
    ensures Join(Next(h, nodes[..to])) == Join(Next(h, nodes[..i])) + hashed
  {
    hide Next, Join;
    hashed := PairChunk(h, nodes[i..to], Join(nodes[i..to]));
    NextPart(h, nodes, i, to);
  }

  /** The paired nodes are cut into blobs of 2 * chunk nodes, each blob is hashed on its own, and the
      results are joined in order. */
  method ParallelPairs(h: Keccak, nodes: seq<Bytes>, chunk: nat) returns (joined: Bytes)
    requires DigestNodes(nodes) && |nodes| % 2 == 0 && chunk > 0
    ensures joined == Join(Next(h, nodes))
  {
    hide Next, Join;
    joined := [];
    var i := 0;
    EmptyNext(h);
    assert nodes[..0] == [];
    while i < |nodes|
      invariant 0 <= i <= |nodes| && i % 2 == 0
      invariant joined == Join(Next(h, nodes[..i]))
    {
      var to := if i + 2 * chunk < |nodes| then i + 2 * chunk else |nodes|;
      assert to % 2 == 0;
      var hashed := PairPart(h, nodes, i, to);
      joined := joined + hashed;
      i := to;
    }
    assert nodes[..i] == nodes;
  }

  /** One level of `claim_tree.levels` in worker processes. */
  method ParallelNext(h: Keccak, prev: seq<Bytes>, chunk: nat) returns (nxt: seq<Bytes>)
    requires DigestNodes(prev) && chunk > 0
    ensures nxt == Next(h, prev)
  {
    hide Next, Join, Split;
    var paired := |prev| - |prev| % 2;
    var joined := ParallelPairs(h, prev[..paired], chunk);
    NextIsDigests(h, prev[..paired]);
    SplitJoin(Next(h, prev[..paired]));
    nxt := Split(joined);
    CarryUp(h, prev, paired);
    if paired < |prev| {
      nxt := nxt + [prev[|prev| - 1]];
    }
  }

  /** `claim_tree.levels`: whatever the worker count decides level by level and whatever the chunk size,
      the levels are those of the sequential builder. */
  method ParallelLevels(h: Keccak, leaves: seq<Bytes>, chunk: nat, parallelMin: nat, pool: bool)
    returns (levels: seq<seq<Bytes>>)
    requires leaves != [] && DigestNodes(leaves) && chunk > 0
    ensures AreLevels(h, levels) && levels[0] == leaves
  {
    hide Next, Chain;
    levels := [leaves];
    ChainOne(h, leaves);
    var last := leaves;
    while |last| > 1
      invariant levels != [] && levels[|levels| - 1] == last != [] && levels[0] == leaves && DigestNodes(last)
      invariant Chain(h, levels)
      decreases |last|
    {
      NextIsDigests(h, last);
      if pool && |last| - |last| % 2 >= parallelMin {
        last := ParallelNext(h, last, chunk);
      } else {
        last := NextLevel(h, last);
      }
      ChainSnoc(h, levels, last);
      levels := levels + [last];
    }
  }

  /** Levels are determined by the leaves. */
  lemma {:induction false} LevelsUnique(h: Keccak, xs: seq<seq<Bytes>>, ys: seq<seq<Bytes>>, k: nat)
    requires AreLevels(h, xs) && AreLevels(h, ys) && xs[0] == ys[0]
    requires k < |xs|
    ensures k < |ys| && xs[k] == ys[k]
    ensures k == |xs| - 1 ==> |xs| == |ys|
  {
    hide Next, Chain;
    if k > 0 {
      LevelsUnique(h, xs, ys, k - 1);
      ChainAt(h, xs, k - 1);
      ChainAt(h, ys, k - 1);
    }
    if k + 1 < |ys| {
      ChainAt(h, ys, k);
    }
  }
}
