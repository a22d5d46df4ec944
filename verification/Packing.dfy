/** First-fit decreasing, as the fund transactions are packed (`fund_txs` in airdrop/tools/vault_batch.py), and how far
    from the best packing it can end. */
module Packing {
  import opened Lists

  datatype Bin<T> = Bin(used: nat, members: seq<T>)

  function SumBy<T>(f: T -> nat, s: seq<T>): nat
  {
    if s == [] then 0 else f(s[0]) + SumBy(f, s[1..])
  }

  function Members<T>(bins: seq<Bin<T>>): seq<T>
  {
    if bins == [] then [] else bins[0].members + Members(bins[1..])
  }

  // ----- sums do not depend on the order

  lemma {:induction false} SumByConcat<T>(f: T -> nat, u: seq<T>, v: seq<T>)
    ensures SumBy(f, u + v) == SumBy(f, u) + SumBy(f, v)
  {
    if u == [] {
      assert u + v == v;
    } else {
      SumByConcat(f, u[1..], v);
      assert (u + v)[1..] == u[1..] + v;
    }
  }

  lemma {:induction false} SumByTake<T>(f: T -> nat, s: seq<T>, i: nat)
    requires i < |s|
    ensures SumBy(f, s) == f(s[i]) + SumBy(f, s[..i] + s[i + 1..])
  {
    var left, right := s[..i], s[i + 1..];
    assert s == left + ([s[i]] + right);
    SumByConcat(f, left, [s[i]] + right);
    SumByConcat(f, [s[i]], right);
    SumByConcat(f, left, right);
    assert [s[i]][1..] == [];
  }

  lemma {:induction false} SumByPermutation<T>(f: T -> nat, u: seq<T>, v: seq<T>)
    requires multiset(u) == multiset(v)
    ensures SumBy(f, u) == SumBy(f, v)
  {
    assert |multiset(u)| == |u| && |multiset(v)| == |v|;
    if u != [] {
      hide SumBy;
      var i := Without(u, v);
      SumByPermutation(f, u[1..], v[..i] + v[i + 1..]);
      SumByTake(f, v, i);
      SumByTake(f, u, 0);
      assert u[..0] + u[1..] == u[1..];
    }
  }

  // ----- the packing

  ghost predicate Loaded<T>(w: T -> nat, bins: seq<Bin<T>>)
  {
    forall i :: 0 <= i < |bins| ==> bins[i].members != [] && bins[i].used == SumBy(w, bins[i].members)
  }

  /** No bin has room for a member of a later one. */
  ghost predicate Tight<T>(w: T -> nat, budget: nat, bins: seq<Bin<T>>)
  {
    forall i, j, x :: 0 <= i < j < |bins| && x in bins[j].members ==> bins[i].used + w(x) > budget
  }

  /** The first member of a bin is at least as heavy as everything in it and in later bins. */
  ghost predicate HeavyFirst<T>(w: T -> nat, bins: seq<Bin<T>>)
  {
    forall i, j, x :: 0 <= i <= j < |bins| && bins[i].members != [] && x in bins[j].members ==> w(bins[i].members[0]) >= w(x)
  }

  predicate Decreasing<T>(w: T -> nat, items: seq<T>)
  {
    forall i, j :: 0 <= i < j < |items| ==> w(items[i]) >= w(items[j])
  }

  ghost predicate Within<T>(budget: nat, bins: seq<Bin<T>>)
  {
    forall i :: 0 <= i < |bins| ==> bins[i].used <= budget
  }

  lemma {:induction false} MembersUpdate<T>(bins: seq<Bin<T>>, j: nat, x: T, used: nat)
    requires j < |bins|
    ensures multiset(Members(bins[j := Bin(used, bins[j].members + [x])])) == multiset(Members(bins)) + multiset{x}
  {
    var next := bins[j := Bin(used, bins[j].members + [x])];
    var rest, first := Members(bins[1..]), bins[0].members;
    if j == 0 {
      assert next[1..] == bins[1..];
      assert multiset((first + [x]) + rest) == multiset(first + rest) + multiset{x};
    } else {
      MembersUpdate(bins[1..], j - 1, x, used);
      assert next[1..] == bins[1..][j - 1 := Bin(used, bins[j].members + [x])];
      assert Members(next) == first + Members(next[1..]) && Members(bins) == first + rest;
      hide Members;
      assert multiset(first + Members(next[1..])) == multiset(first) + multiset(Members(next[1..]));
    }
  }

  lemma {:induction false} MembersAppend<T>(bins: seq<Bin<T>>, b: Bin<T>)
    ensures Members(bins + [b]) == Members(bins) + b.members
  {
    if bins == [] {
      assert bins + [b] == [b] && [b][1..] == [];
    } else {
      MembersAppend(bins[1..], b);
      assert (bins + [b])[1..] == bins[1..] + [b];
    }
  }

  /** Putting `x` into the first bin that has room for it, or into a new one. */
  lemma PutKeeps<T>(w: T -> nat, budget: nat, bins: seq<Bin<T>>, j: nat, x: T)
    requires Loaded(w, bins) && Tight(w, budget, bins) && j <= |bins|
    requires forall i :: 0 <= i < j ==> bins[i].used + w(x) > budget
    ensures var next := Put(w, bins, j, x);
            Loaded(w, next) && Tight(w, budget, next) && multiset(Members(next)) == multiset(Members(bins)) + multiset{x}
  {
    hide Loaded, Tight, Members;
    PutLoaded(w, bins, j, x);
    PutTight(w, budget, bins, j, x);
    PutMembers(w, bins, j, x);
  }

  lemma PutMembers<T>(w: T -> nat, bins: seq<Bin<T>>, j: nat, x: T)
    requires j <= |bins|
    ensures multiset(Members(Put(w, bins, j, x))) == multiset(Members(bins)) + multiset{x}
  {
    hide Members;
    if j < |bins| {
      MembersUpdate(bins, j, x, bins[j].used + w(x));
    } else {
      MembersAppend(bins, Bin(w(x), [x]));
      assert multiset(Members(bins) + [x]) == multiset(Members(bins)) + multiset{x};
    }
  }

  lemma PutLoaded<T>(w: T -> nat, bins: seq<Bin<T>>, j: nat, x: T)
    requires Loaded(w, bins) && j <= |bins|
    ensures Loaded(w, Put(w, bins, j, x))
  {
    assert [x][1..] == [];
    if j < |bins| {
      SumByConcat(w, bins[j].members, [x]);
    }
  }

  lemma PutTight<T>(w: T -> nat, budget: nat, bins: seq<Bin<T>>, j: nat, x: T)
    requires Tight(w, budget, bins) && j <= |bins| && (forall i :: 0 <= i < j ==> bins[i].used + w(x) > budget)
    ensures Tight(w, budget, Put(w, bins, j, x))
  {
    var next := Put(w, bins, j, x);
    forall i, k, y | 0 <= i < k < |next| && y in next[k].members ensures next[i].used + w(y) > budget {
      if k < |bins| && y in bins[k].members {
        assert bins[i].used + w(y) > budget;
      }
    }
  }

  function Put<T>(w: T -> nat, bins: seq<Bin<T>>, j: nat, x: T): seq<Bin<T>>
    requires j <= |bins|
  {
    if j < |bins| then bins[j := Bin(bins[j].used + w(x), bins[j].members + [x])] else bins + [Bin(w(x), [x])]
  }

  lemma PutKeepsHeavy<T>(w: T -> nat, bins: seq<Bin<T>>, j: nat, x: T)
    requires j <= |bins| && HeavyFirst(w, bins) && (forall i :: 0 <= i < |bins| ==> bins[i].members != [])
    requires forall y :: y in Members(bins) ==> w(y) >= w(x)
    ensures HeavyFirst(w, Put(w, bins, j, x))
  {
    var next := Put(w, bins, j, x);
    forall i, k, y | 0 <= i <= k < |next| && y in next[k].members ensures w(next[i].members[0]) >= w(y) {
      PutParts(w, bins, j, x, i, k, y);
      if i < |bins| {
        MembersHold(bins, i);
      }
    }
  }

  /** What `Put` leaves of a bin's head, and where a member of the new bins comes from. */
  lemma PutParts<T>(w: T -> nat, bins: seq<Bin<T>>, j: nat, x: T, i: nat, k: nat, y: T)
    requires j <= |bins| && (forall i :: 0 <= i < |bins| ==> bins[i].members != [])
    requires var next := Put(w, bins, j, x); i <= k < |next| && y in next[k].members
    ensures var next := Put(w, bins, j, x);
            && next[i].members != []
            && next[i].members[0] == (if i < |bins| then bins[i].members[0] else x)
            && (y == x || (k < |bins| && y in bins[k].members))
  {
  }

  lemma {:induction false} MembersHold<T>(bins: seq<Bin<T>>, i: nat)
    requires i < |bins|
    ensures forall y :: y in bins[i].members ==> y in Members(bins)
  {
    if i > 0 {
      MembersHold(bins[1..], i - 1);
    }
  }

  /** The first bin with room for `x`, or the place of a new one. */
  function FirstRoom<T>(w: T -> nat, bins: seq<Bin<T>>, budget: nat, x: T): (j: nat)
    ensures j <= |bins| && (j < |bins| ==> bins[j].used + w(x) <= budget)
    ensures forall i :: 0 <= i < j ==> bins[i].used + w(x) > budget
  {
    if bins == [] || bins[0].used + w(x) <= budget then 0 else 1 + FirstRoom(w, bins[1..], budget, x)
  }

  /** The items placed one after the other, each in the first bin with room for it. */
  function Bins<T>(w: T -> nat, items: seq<T>, budget: nat): seq<Bin<T>>
  {
    if items == [] then []
    else
      var bins, x := Bins(w, items[..|items| - 1], budget), items[|items| - 1];
      Put(w, bins, FirstRoom(w, bins, budget, x), x)
  }

  lemma PackedNext<T>(w: T -> nat, items: seq<T>, budget: nat, n: nat, j: nat)
    requires n < |items|
    requires var bins := Bins(w, items[..n], budget);
             && j <= |bins| && (j < |bins| ==> bins[j].used + w(items[n]) <= budget)
             && forall i :: 0 <= i < j ==> bins[i].used + w(items[n]) > budget
    ensures Bins(w, items[..n + 1], budget) == Put(w, Bins(w, items[..n], budget), j, items[n])
  {
    hide FirstRoom;
    assert items[..n + 1][..n] == items[..n] && items[..n + 1][n] == items[n];
    var bins := Bins(w, items[..n], budget);
    var k := FirstRoom(w, bins, budget, items[n]);
  }

  method FirstFit<T>(w: T -> nat, items: seq<T>, budget: nat) returns (bins: seq<Bin<T>>)
    ensures bins == Bins(w, items, budget)
    ensures multiset(Members(bins)) == multiset(items)
    ensures Loaded(w, bins) && Tight(w, budget, bins)
    ensures (forall x :: x in items ==> w(x) <= budget) ==> Within(budget, bins)
    ensures Decreasing(w, items) ==> HeavyFirst(w, bins)
  {
    hide SumBy, Members, Loaded, Tight, HeavyFirst, Bins;
    bins := [];
    NothingPacked(w, budget);
    EmptyBins(w, budget);
    var n := 0;
    while n < |items|
      invariant n <= |items| && bins == Bins(w, items[..n], budget)
      invariant multiset(Members(bins)) == multiset(items[..n])
      invariant Loaded(w, bins) && Tight(w, budget, bins)
      invariant (forall x :: x in items ==> w(x) <= budget) ==> Within(budget, bins)
      invariant Decreasing(w, items) ==> HeavyFirst(w, bins)
    {
      var x := items[n];
      var j := 0;
      while j < |bins| && bins[j].used + w(x) > budget
        invariant j <= |bins|
        invariant forall i :: 0 <= i < j ==> bins[i].used + w(x) > budget
      {
        j := j + 1;
      }
      PackedNext(w, items, budget, n, j);
      PutKeeps(w, budget, bins, j, x);
      if Decreasing(w, items) {
        EarlierHeavier(w, items, n, bins);
        AllNonempty(w, bins);
        PutKeepsHeavy(w, bins, j, x);
      }
      if j < |bins| {
        bins := bins[j := Bin(bins[j].used + w(x), bins[j].members + [x])];
      } else {
        bins := bins + [Bin(w(x), [x])];
      }
      assert items[..n + 1] == items[..n] + [x];
      n := n + 1;
    }
    assert items[..n] == items;
  }

  lemma NothingPacked<T>(w: T -> nat, budget: nat)
    ensures Bins(w, [], budget) == []
  {
  }

  lemma EmptyBins<T>(w: T -> nat, budget: nat)
    ensures Members<T>([]) == [] && Loaded(w, []) && Tight(w, budget, []) && HeavyFirst(w, [])
  {
  }

  lemma AllNonempty<T>(w: T -> nat, bins: seq<Bin<T>>)
    requires Loaded(w, bins)
    ensures forall i :: 0 <= i < |bins| ==> bins[i].members != []
  {
  }

  lemma EarlierHeavier<T>(w: T -> nat, items: seq<T>, n: nat, bins: seq<Bin<T>>)
    requires n < |items| && Decreasing(w, items) && multiset(Members(bins)) == multiset(items[..n])
    ensures forall y :: y in Members(bins) ==> w(y) >= w(items[n])
  {
    forall y | y in Members(bins) ensures w(y) >= w(items[n]) {
      assert y in multiset(Members(bins));
      assert y in items[..n];
    }
  }

  // ----- how good it is

  ghost predicate Packs<T>(w: T -> nat, budget: nat, bins: seq<seq<T>>)
  {
    forall i :: 0 <= i < |bins| ==> SumBy(w, bins[i]) <= budget
  }

  /** Any two bins together exceed the budget. */
  lemma TwoBinsExceed<T>(w: T -> nat, budget: nat, bins: seq<Bin<T>>, i: nat, j: nat)
    requires Loaded(w, bins) && Tight(w, budget, bins) && i < j < |bins|
    ensures bins[i].used + bins[j].used > budget
  {
    var x := bins[j].members[0];
    assert x in bins[j].members;
    SumByTake(w, bins[j].members, 0);
  }

  /** 1 for an item that fills more than half of the budget. */
  function Big<T>(w: T -> nat, budget: nat): T -> nat
  {
    x => if 2 * w(x) > budget then 1 else 0
  }

  lemma {:induction false} BigWeighs<T>(w: T -> nat, budget: nat, s: seq<T>)
    ensures 2 * SumBy(w, s) >= (budget + 1) * SumBy(Big(w, budget), s)
  {
    if s != [] {
      BigWeighs(w, budget, s[1..]);
      var big, rest := Big(w, budget)(s[0]), SumBy(Big(w, budget), s[1..]);
      assert (budget + 1) * (big + rest) == (budget + 1) * big + (budget + 1) * rest;
    }
  }

  lemma OneBig<T>(w: T -> nat, budget: nat, s: seq<T>)
    requires SumBy(w, s) <= budget
    ensures SumBy(Big(w, budget), s) <= 1
  {
    hide SumBy;
    BigWeighs(w, budget, s);
    Cancels(budget + 1, SumBy(Big(w, budget), s), 2);
  }

  lemma Outweighs(j: nat, k: nat, b: nat)
    requires j > 0 && j * (b + 1) <= k * b
    ensures k > j
  {
    assert j * (b + 1) == b * j + j;
    Cancels(b, j, k);
  }

  /** What any packing within the budget can hold. */
  lemma {:induction false} PackingHolds<T>(w: T -> nat, budget: nat, other: seq<seq<T>>)
    requires Packs(w, budget, other)
    ensures SumBy(w, Flatten(other)) <= |other| * budget
    ensures SumBy(Big(w, budget), Flatten(other)) <= |other|
  {
    if other != [] {
      hide SumBy;
      PackingHolds(w, budget, other[1..]);
      OneBig(w, budget, other[0]);
      SumByConcat(w, other[0], Flatten(other[1..]));
      SumByConcat(Big(w, budget), other[0], Flatten(other[1..]));
      OneMore(|other|, budget);
    }
  }

  lemma {:induction false} HeadsCount<T>(f: T -> nat, bins: seq<Bin<T>>, n: nat)
    requires n <= |bins| && (forall i :: 0 <= i < n ==> bins[i].members != [] && f(bins[i].members[0]) >= 1)
    ensures SumBy(f, Members(bins)) >= n
  {
    if n > 0 {
      HeadsCount(f, bins[1..], n - 1);
      SumByConcat(f, bins[0].members, Members(bins[1..]));
    }
  }

  lemma {:induction false} MembersConcat<T>(u: seq<Bin<T>>, v: seq<Bin<T>>)
    ensures Members(u + v) == Members(u) + Members(v)
  {
    if u == [] {
      assert u + v == v;
    } else {
      MembersConcat(u[1..], v);
      assert (u + v)[1..] == u[1..] + v;
      Associative(u[0].members, Members(u[1..]), Members(v));
    }
  }

  /** Bins without room for any of `late`, each taken with an item of its own, weigh more than the budget apiece. */
  lemma {:induction false} FullBinsWeigh<T>(w: T -> nat, budget: nat, early: seq<Bin<T>>, late: seq<T>)
    requires |early| <= |late| && Loaded(w, early)
    requires forall i, x :: 0 <= i < |early| && x in late ==> early[i].used + w(x) > budget
    ensures SumBy(w, Members(early)) + SumBy(w, late) >= |early| * (budget + 1)
  {
    if early != [] {
      assert late[0] in late && early[0].used + w(late[0]) > budget;
      FullBinsWeigh(w, budget, early[1..], late[1..]);
      SumByConcat(w, early[0].members, Members(early[1..]));
      OneMore(|early|, budget + 1);
    }
  }

  lemma MoreThanOne<T>(w: T -> nat, budget: nat, s: seq<T>)
    requires s != [] && 2 * w(s[0]) <= budget < 2 * SumBy(w, s)
    ensures |s| >= 2
  {
  }

  /** Every bin of small items but the last holds two. */
  lemma {:induction false} SmallBinsHoldTwo<T>(w: T -> nat, budget: nat, bins: seq<Bin<T>>)
    requires bins != [] && Loaded(w, bins) && Tight(w, budget, bins)
    requires forall i, x :: 0 <= i < |bins| && x in bins[i].members ==> 2 * w(x) <= budget
    ensures |Members(bins)| >= 2 * |bins| - 1
  {
    if |bins| > 1 {
      var s, last := bins[0].members, bins[|bins| - 1].members;
      assert last[0] in last && s[0] in s;
      MoreThanOne(w, budget, s);
      TailKeeps(w, budget, bins);
      SmallBinsHoldTwo(w, budget, bins[1..]);
    }
  }

  lemma TailKeeps<T>(w: T -> nat, budget: nat, bins: seq<Bin<T>>)
    requires bins != [] && Loaded(w, bins) && Tight(w, budget, bins)
    ensures Loaded(w, bins[1..]) && Tight(w, budget, bins[1..])
  {
    forall i, j, x | 0 <= i < j < |bins[1..]| && x in bins[1..][j].members ensures bins[1..][i].used + w(x) > budget {
      assert x in bins[1 + j].members;
    }
  }

  lemma {:induction false} DropKeeps<T>(w: T -> nat, budget: nat, bins: seq<Bin<T>>, n: nat)
    requires n <= |bins| && Loaded(w, bins) && Tight(w, budget, bins)
    ensures Loaded(w, bins[n..]) && Tight(w, budget, bins[n..])
    decreases n
  {
    if n == 0 {
      assert bins[0..] == bins;
    } else {
      TailKeeps(w, budget, bins);
      DropKeeps(w, budget, bins[1..], n - 1);
      assert bins[1..][n - 1..] == bins[n..];
    }
  }

  /** First-fit decreasing uses at most one and a half times the bins of any packing of the same items. */
  lemma ThreeHalves<T>(w: T -> nat, budget: nat, bins: seq<Bin<T>>, other: seq<seq<T>>)
    requires Loaded(w, bins) && Tight(w, budget, bins) && HeavyFirst(w, bins)
    requires Packs(w, budget, other) && multiset(Flatten(other)) == multiset(Members(bins))
    ensures 2 * |bins| <= 3 * |other|
  {
    PackingHolds(w, budget, other);
    SumByPermutation(w, Flatten(other), Members(bins));
    SumByPermutation(Big(w, budget), Flatten(other), Members(bins));
    hide SumBy, Big, Tight, HeavyFirst, Packs, Members;
    if bins != [] {
      var j := (2 * |bins| + 2) / 3 - 1;
      assert 2 * |bins| <= 3 * (j + 1) <= 2 * |bins| + 2;
      if 2 * w(bins[j].members[0]) > budget {
        HeadsBig(w, budget, bins, j);
        HeadsCount(Big(w, budget), bins, j + 1);
      } else {
        SmallTail(w, budget, bins, j);
        EnoughWeight(w, budget, bins, j, |other|);
        NotNone(w, bins, other);
      }
    }
  }

  lemma NotNone<T>(w: T -> nat, bins: seq<Bin<T>>, other: seq<seq<T>>)
    requires bins != [] && Loaded(w, bins) && multiset(Flatten(other)) == multiset(Members(bins))
    ensures other != []
  {
    assert |multiset(Flatten(other))| == |Flatten(other)| && |multiset(Members(bins))| == |Members(bins)|;
  }

  lemma HeadsBig<T>(w: T -> nat, budget: nat, bins: seq<Bin<T>>, j: nat)
    requires Loaded(w, bins) && HeavyFirst(w, bins) && j < |bins| && 2 * w(bins[j].members[0]) > budget
    ensures forall i :: 0 <= i <= j ==> bins[i].members != [] && Big(w, budget)(bins[i].members[0]) >= 1
  {
    forall i | 0 <= i <= j ensures Big(w, budget)(bins[i].members[0]) >= 1 {
      assert bins[j].members[0] in bins[j].members;
    }
  }

  lemma SmallTail<T>(w: T -> nat, budget: nat, bins: seq<Bin<T>>, j: nat)
    requires Loaded(w, bins) && Tight(w, budget, bins) && HeavyFirst(w, bins)
    requires j < |bins| && 2 * w(bins[j].members[0]) <= budget
    ensures |Members(bins[j..])| >= 2 * (|bins| - j) - 1
  {
    DropKeeps(w, budget, bins, j);
    forall i, x | 0 <= i < |bins[j..]| && x in bins[j..][i].members ensures 2 * w(x) <= budget {
      assert x in bins[j + i].members;
    }
    SmallBinsHoldTwo(w, budget, bins[j..]);
  }

  lemma EnoughWeight<T>(w: T -> nat, budget: nat, bins: seq<Bin<T>>, j: nat, k: nat)
    requires Loaded(w, bins) && Tight(w, budget, bins) && j < |bins| && |Members(bins[j..])| >= j
    requires SumBy(w, Members(bins)) <= k * budget
    ensures j > 0 ==> k > j
  {
    hide SumBy;
    var early, late := bins[..j], Members(bins[j..]);
    assert bins == early + bins[j..];
    MembersConcat(early, bins[j..]);
    SumByConcat(w, Members(early), late);
    forall i, x | 0 <= i < |early| && x in late ensures early[i].used + w(x) > budget {
      var k := BinOf(bins[j..], x);
      assert x in bins[j + k].members;
    }
    FullBinsWeigh(w, budget, early, late);
    if j > 0 {
      Outweighs(j, k, budget);
    }
  }

  lemma {:induction false} BinOf<T>(bins: seq<Bin<T>>, x: T) returns (k: nat)
    requires x in Members(bins)
    ensures k < |bins| && x in bins[k].members
  {
    if x in bins[0].members {
      k := 0;
    } else {
      k := BinOf(bins[1..], x);
      k := k + 1;
    }
  }
}
