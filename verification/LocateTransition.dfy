/** Finding when an account last changed (`locateTransition` in toolkit/cmd/account-transition-locate/main.go). */
module LocateTransition {
  import opened Lists

  newtype uint64 = x: int | 0 <= x < 0x1_0000_0000_0000_0000

  /** The encoded account in each block's state; empty where the account does not exist. */
  type Leaf = seq<nat>
  type History = nat -> Leaf

  /** Where the exponential phase stops: every probe down to block 0 matched, or a mismatch below the last match. */
  datatype Range = Whole | Between(lower: nat, upper: nat)

  predicate Matches(leaf: History, current: nat, block: nat) { leaf(block) == leaf(current) }

  function Probe(current: nat, step: nat): nat { if step < current then current - step else 0 }

  function NextStep(current: nat, step: nat): nat { if step > current / 2 then current else 2 * step }

  function Expo(leaf: History, current: nat, step: nat, upper: nat): Range
    requires 1 <= step <= current
    decreases current - step
  {
    var probe := Probe(current, step);
    if !Matches(leaf, current, probe) then Between(probe, upper)
    else if probe == 0 then Whole
    else Expo(leaf, current, NextStep(current, step), probe)
  }

  function Narrow(leaf: History, current: nat, lower: nat, upper: nat): nat
    requires lower < upper
    decreases upper - lower
  {
    if upper - lower <= 1 then upper
    else
      var middle := lower + (upper - lower) / 2;
      if Matches(leaf, current, middle) then Narrow(leaf, current, lower, middle) else Narrow(leaf, current, middle, upper)
  }

  lemma {:induction false} ExpoBrackets(leaf: History, current: nat, step: nat, upper: nat)
    requires 1 <= step <= current && Matches(leaf, current, upper) && Probe(current, step) < upper <= current
    ensures var r := Expo(leaf, current, step, upper);
            r.Between? ==> r.lower < r.upper <= upper && !Matches(leaf, current, r.lower) && Matches(leaf, current, r.upper)
    ensures Expo(leaf, current, step, upper).Whole? ==> Matches(leaf, current, 0)
    decreases current - step
  {
    var probe := Probe(current, step);
    if Matches(leaf, current, probe) && probe != 0 {
      ExpoBrackets(leaf, current, NextStep(current, step), probe);
    }
  }

  function Locate(leaf: History, current: nat): nat
  {
    if current == 0 then 0
    else
      ExpoBrackets(leaf, current, 1, current);
      match Expo(leaf, current, 1, current)
      case Whole => 0
      case Between(lower, upper) => Narrow(leaf, current, lower, upper)
  }

  /** The account became what it is now in block `t`, or always was. */
  predicate IsTransition(leaf: History, current: nat, t: nat)
  {
    t <= current && Matches(leaf, current, t) && (t > 0 ==> !Matches(leaf, current, t - 1))
  }

  lemma {:induction false} NarrowFinds(leaf: History, current: nat, lower: nat, upper: nat)
    requires lower < upper && !Matches(leaf, current, lower) && Matches(leaf, current, upper)
    ensures var t := Narrow(leaf, current, lower, upper);
            lower < t <= upper && Matches(leaf, current, t) && !Matches(leaf, current, t - 1)
    decreases upper - lower
  {
    if upper - lower > 1 {
      var middle := lower + (upper - lower) / 2;
      if Matches(leaf, current, middle) {
        NarrowFinds(leaf, current, lower, middle);
      } else {
        NarrowFinds(leaf, current, middle, upper);
      }
    }
  }

  /** Whatever the history, the block found is a transition to the current state. */
  lemma LocateFinds(leaf: History, current: nat)
    ensures IsTransition(leaf, current, Locate(leaf, current))
  {
    if current > 0 {
      ExpoBrackets(leaf, current, 1, current);
      var r := Expo(leaf, current, 1, current);
      if r.Between? {
        NarrowFinds(leaf, current, r.lower, r.upper);
      }
    }
  }

  // ----- when it is the last one

  /** The current state has been unchanged since block `s`, and not before it. */
  predicate LastChange(leaf: History, current: nat, s: nat)
  {
    IsTransition(leaf, current, s) && forall b :: s <= b <= current ==> Matches(leaf, current, b)
  }

  /** The doubling phase as it goes when exactly the blocks from `s` on match. */
  function Doubling(current: nat, s: nat, step: nat, upper: nat): Range
    requires 1 <= step <= current
    decreases current - step
  {
    var probe := Probe(current, step);
    if probe < s then Between(probe, upper)
    else if probe == 0 then Whole
    else Doubling(current, s, NextStep(current, step), probe)
  }

  /** The blocks before `s` that the halving phase then looks at. */
  function Halving(lower: nat, upper: nat, s: nat): (blocks: set<nat>)
    requires lower < upper
    ensures forall p :: p in blocks ==> lower < p < s
    decreases upper - lower
  {
    if upper - lower <= 1 then {}
    else
      var middle := lower + (upper - lower) / 2;
      if s <= middle then Halving(lower, middle, s) else {middle} + Halving(middle, upper, s)
  }

  lemma {:induction false} DoublingBrackets(current: nat, s: nat, step: nat, upper: nat)
    requires 1 <= step <= current && Probe(current, step) < upper <= current && s <= upper
    ensures var r := Doubling(current, s, step, upper); if r.Whole? then s == 0 else r.lower < s <= r.upper <= upper
    decreases current - step
  {
    var probe := Probe(current, step);
    if probe >= s && probe != 0 {
      DoublingBrackets(current, s, NextStep(current, step), probe);
    }
  }

  /** The blocks before `s` that decide whether `s` is found: they depend on `current` and `s` alone. */
  function Deciding(current: nat, s: nat): set<nat>
    requires s <= current
  {
    if current == 0 then {}
    else
      DoublingBrackets(current, s, 1, current);
      match Doubling(current, s, 1, current)
      case Whole => {}
      case Between(lower, upper) => {lower} + Halving(lower, upper, s)
  }

  ghost predicate MatchesFrom(leaf: History, current: nat, s: nat)
  {
    forall b :: s <= b <= current ==> Matches(leaf, current, b)
  }

  /** The search leaves the fixed course exactly when the block below `s` at its end matches. */
  lemma {:induction false} ExpoFollows(leaf: History, current: nat, s: nat, step: nat, upper: nat)
    requires MatchesFrom(leaf, current, s) && 1 <= step <= current && Probe(current, step) < upper <= current && s <= upper
    ensures var d, r := Doubling(current, s, step, upper), Expo(leaf, current, step, upper);
            && (d.Whole? ==> r.Whole?)
            && (d.Between? ==> if Matches(leaf, current, d.lower) then r.Whole? || r.upper <= d.lower else r == d)
    decreases current - step
  {
    hide Matches;
    var probe := Probe(current, step);
    if probe >= s {
      if probe != 0 {
        ExpoFollows(leaf, current, s, NextStep(current, step), probe);
      }
    } else if Matches(leaf, current, probe) && probe != 0 {
      ExpoBrackets(leaf, current, NextStep(current, step), probe);
    }
  }

  lemma {:induction false} NarrowFollows(leaf: History, current: nat, s: nat, lower: nat, upper: nat)
    requires MatchesFrom(leaf, current, s) && lower < s <= upper <= current && !Matches(leaf, current, lower)
    ensures Narrow(leaf, current, lower, upper) == s <==> forall p :: p in Halving(lower, upper, s) ==> !Matches(leaf, current, p)
    decreases upper - lower
  {
    hide Matches;
    if upper - lower > 1 {
      var middle := lower + (upper - lower) / 2;
      if s <= middle {
        NarrowFollows(leaf, current, s, lower, middle);
      } else if Matches(leaf, current, middle) {
        assert middle in Halving(lower, upper, s);
        NarrowFinds(leaf, current, lower, middle);
      } else {
        NarrowFollows(leaf, current, s, middle, upper);
      }
    }
  }

  /** The block found is the last change exactly when none of the deciding blocks already had the current state. */
  lemma LocatesLastChangeIff(leaf: History, current: nat, s: nat)
    requires LastChange(leaf, current, s)
    ensures Locate(leaf, current) == s <==> forall p :: p in Deciding(current, s) ==> !Matches(leaf, current, p)
  {
    hide Matches, Expo, Narrow, Doubling, Halving;
    if current > 0 {
      assert Matches(leaf, current, current);
      DoublingBrackets(current, s, 1, current);
      ExpoBrackets(leaf, current, 1, current);
      ExpoFollows(leaf, current, s, 1, current);
      var d, r := Doubling(current, s, 1, current), Expo(leaf, current, 1, current);
      if d.Between? {
        assert d.lower in Deciding(current, s);
        if r == d {
          NarrowFollows(leaf, current, s, d.lower, d.upper);
        } else if r.Between? {
          NarrowFinds(leaf, current, r.lower, r.upper);
        }
      }
    }
  }

  /** So it is whenever the blocks with the current state are the last ones. */
  lemma SuffixLocated(leaf: History, current: nat, s: nat)
    requires s <= current && forall b :: 0 <= b <= current ==> (Matches(leaf, current, b) <==> s <= b)
    ensures Locate(leaf, current) == s
  {
    hide Matches;
    DecidingBefore(current, s);
    LocatesLastChangeIff(leaf, current, s);
  }

  lemma DecidingBefore(current: nat, s: nat)
    requires s <= current
    ensures forall p :: p in Deciding(current, s) ==> p < s
  {
    if current > 0 {
      DoublingBrackets(current, s, 1, current);
    }
  }

  /** And every deciding block matters: if the state was also the current one in that block alone, the search misses the
      last change. */
  lemma EachDecides(current: nat, s: nat, p: nat, a: Leaf, b: Leaf)
    requires s <= current && p in Deciding(current, s) && p < s - 1 && a != b
    ensures var leaf: History := (n: nat) => if n >= s || n == p then a else b;
            LastChange(leaf, current, s) && Locate(leaf, current) != s
  {
    var leaf: History := (n: nat) => if n >= s || n == p then a else b;
    assert LastChange(leaf, current, s);
    LocatesLastChangeIff(leaf, current, s);
    assert Matches(leaf, current, p);
  }

  /** A state that comes back can be missed: here it was left in block 5 only, and the probes are at 7, 6, 4 and 0. */
  lemma ReturnIsMissed(a: Leaf, b: Leaf)
    requires a != b
    ensures var leaf: History := (n: nat) => if n == 5 then b else a;
            LastChange(leaf, 8, 6) && Locate(leaf, 8) == 0
  {
    var leaf: History := (n: nat) => if n == 5 then b else a;
    assert Expo(leaf, 8, 8, 4) == Whole;
    assert Expo(leaf, 8, 4, 6) == Expo(leaf, 8, 8, 4);
    assert Expo(leaf, 8, 2, 7) == Expo(leaf, 8, 4, 6);
    assert Expo(leaf, 8, 1, 8) == Expo(leaf, 8, 2, 7);
  }

  // ----- the search in 64-bit arithmetic

  /** `absent` where the program stops because the account does not exist now. */
  datatype Outcome = Absent | Found(block: uint64, previous: Leaf, exponential: uint64, binary: uint64)

  lemma {:induction false} SmallExponent(k: nat)
    requires P2(k) < 0x1_0000_0000_0000_0000
    ensures k < 64
  {
    hide P2;
    if k >= 64 {
      P2Sum(k - 64, 64);
      Sixteen();
      P2Sum(16, 16);
      P2Sum(32, 32);
      Grows(1, P2(k - 64), P2(64));
    }
  }

  lemma Sixteen()
    ensures P2(16) == 65536
  {
    assert P2(8) == 256;
    P2Sum(8, 8);
  }

  /** Doubling steps back from the current block. Nothing here leaves 64 bits, and the lookups are at most two more than
      the binary logarithm of the block number. */
  method Exponential(leaf: History, current: uint64) returns (found: Range, lower: uint64, upper: uint64, lookups: uint64)
    requires current > 0
    ensures found == Expo(leaf, current as nat, 1, current as nat)
    ensures found.Between? ==> found == Between(lower as nat, upper as nat)
    ensures lookups >= 2 ==> P2(lookups as nat - 2) < current as nat
  {
    hide P2;
    ghost var c := current as nat;
    upper, lower, lookups := current, 0, 0;
    var step: uint64 := 1;
    OneIs();
    while true
      invariant 1 <= step <= current && Expo(leaf, c, 1, c) == Expo(leaf, c, step as nat, upper as nat)
      invariant step as nat == P2(lookups as nat) || step == current
      invariant lookups >= 1 ==> P2(lookups as nat - 1) < c
      invariant lookups <= 64
      decreases current - step
    {
      var probe: uint64 := if step < current then current - step else 0;
      lookups := lookups + 1;
      if leaf(probe as nat) != leaf(current as nat) {
        lower := probe;
        return Between(probe as nat, upper as nat), lower, upper, lookups;
      }
      upper := probe;
      if probe == 0 {
        return Whole, lower, upper, lookups;
      }
      Doubles(lookups as nat - 1);
      SmallExponent(lookups as nat - 1);
      step := if step > current / 2 then current else 2 * step;
    }
  }

  lemma OneIs()
    ensures P2(0) == 1
  {
  }

  lemma Doubles(k: nat)
    ensures P2(k + 1) == 2 * P2(k)
  {
  }

  /** Halving the interval. */
  method Binary(leaf: History, current: uint64, lower0: uint64, upper0: uint64) returns (upper: uint64, lookups: uint64)
    requires lower0 < upper0
    ensures upper as nat == Narrow(leaf, current as nat, lower0 as nat, upper0 as nat)
    ensures lookups >= 1 ==> P2(lookups as nat - 1) < (upper0 - lower0) as nat
  {
    hide P2;
    ghost var c, d := current as nat, (upper0 - lower0) as nat;
    var lower: uint64 := lower0;
    upper, lookups := upper0, 0;
    OneIs();
    while upper - lower > 1
      invariant lower < upper && Narrow(leaf, c, lower0 as nat, upper0 as nat) == Narrow(leaf, c, lower as nat, upper as nat)
      invariant ((upper - lower) as nat - 1) * P2(lookups as nat) < d
      invariant lookups >= 1 ==> P2(lookups as nat - 1) < d
      invariant lookups <= 64
      decreases upper - lower
    {
      var middle := lower + (upper - lower) / 2;
      Halves((upper - lower) as nat, P2(lookups as nat), d);
      Doubles(lookups as nat);
      SmallExponent(lookups as nat);
      lookups := lookups + 1;
      if leaf(middle as nat) == leaf(current as nat) {
        upper := middle;
      } else {
        lower := middle;
      }
    }
  }

  lemma Halves(n: nat, m: nat, d: nat)
    requires n >= 2 && (n - 1) * m < d
    ensures m < d && (n / 2 - 1) * (2 * m) < d && (n - n / 2 - 1) * (2 * m) < d
  {
    var k := n - n / 2;
    assert 2 * (k - 1) <= n - 1 && 2 * (n / 2 - 1) <= n - 1;
    Grows(1, n - 1, m);
    Grows(2 * (k - 1), n - 1, m);
    Grows(2 * (n / 2 - 1), n - 1, m);
    Swap(k - 1, m);
    Swap(n / 2 - 1, m);
  }

  lemma Grows(a: nat, b: nat, m: nat)
    requires a <= b
    ensures a * m <= b * m
  {
  }

  lemma Swap(a: nat, m: nat)
    ensures a * (2 * m) == (2 * a) * m
  {
  }

  /** The whole search. The two checks at its end never fail. */
  method LocateBlock(leaf: History, current: uint64) returns (r: Outcome)
    ensures r.Absent? <==> leaf(current as nat) == []
    ensures r.Found? ==> r.block as nat == Locate(leaf, current as nat)
    ensures r.Found? ==> r.previous == if r.block == 0 then [] else leaf(r.block as nat - 1)
    ensures r.Found? && r.exponential >= 2 ==> P2(r.exponential as nat - 2) < current as nat
    ensures r.Found? && r.binary >= 1 ==> P2(r.binary as nat - 1) < current as nat
  {
    hide P2, Expo, Narrow;
    var currentLeaf := leaf(current as nat);
    if currentLeaf == [] {
      return Absent;
    }
    if current == 0 {
      return Found(0, [], 0, 0);
    }
    var found, lower, upper, exponential := Exponential(leaf, current);
    if found.Whole? {
      return Found(0, [], exponential, 0);
    }
    ExpoBrackets(leaf, current as nat, 1, current as nat);
    var block, binary := Binary(leaf, current, lower, upper);
    NarrowFinds(leaf, current as nat, lower as nat, upper as nat);
    assert leaf(block as nat) == currentLeaf && leaf((block - 1) as nat) != currentLeaf;
    r := Found(block, leaf((block - 1) as nat), exponential, binary);
  }
}
