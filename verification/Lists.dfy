/** Lists (sums, concatenations, sorting) and powers of two. */
module Lists {

  function Sum(xs: seq<nat>): nat
  {
    if xs == [] then 0 else xs[0] + Sum(xs[1..])
  }

  lemma EmptySum()
    ensures Sum([]) == 0
  {
  }

  lemma {:induction false} SumConcat(u: seq<nat>, v: seq<nat>)
    ensures Sum(u + v) == Sum(u) + Sum(v)
  {
    if u == [] {
      assert u + v == v;
    } else {
      SumConcat(u[1..], v);
      assert (u + v)[1..] == u[1..] + v;
    }
  }

  function Flatten<T>(pieces: seq<seq<T>>): seq<T>
  {
    if pieces == [] then [] else pieces[0] + Flatten(pieces[1..])
  }

  /** A Python slice: as much of it as there is. */
  function Slice<T>(s: seq<T>, from: nat, to: nat): seq<T>
  {
    var end := if to < |s| then to else |s|;
    if from <= end then s[from..end] else []
  }

  lemma Associative<T>(a: seq<T>, b: seq<T>, c: seq<T>)
    ensures (a + b) + c == a + (b + c)
  {
  }

  lemma Cancels(c: nat, a: nat, b: nat)
    requires c * a < c * b
    ensures a < b
  {
  }

  lemma QuotientIs(a: nat, d: nat, q: nat, r: nat)
    requires d > 0 && a == d * q + r && r < d
    ensures a / d == q
  {
    var p := a / d;
    assert a == d * p + a % d;
    assert d * (p + 1) == d * p + d && d * (q + 1) == d * q + d;
    Cancels(d, p, q + 1);
    Cancels(d, q, p + 1);
  }

  lemma OneMore(n: nat, b: nat)
    requires n > 0
    ensures n * b == b + (n - 1) * b
  {
  }

  // ----- sorting

  function Insert<T>(x: T, s: seq<T>, le: (T, T) -> bool): seq<T>
  {
    if s == [] || le(x, s[0]) then [x] + s else [s[0]] + Insert(x, s[1..], le)
  }

  /** `sorted`: stable, like Python's. */
  function Sorted<T>(s: seq<T>, le: (T, T) -> bool): seq<T>
  {
    if s == [] then [] else Insert(s[0], Sorted(s[1..], le), le)
  }

  lemma {:induction false} InsertKeeps<T>(x: T, s: seq<T>, le: (T, T) -> bool)
    ensures multiset(Insert(x, s, le)) == multiset{x} + multiset(s)
  {
    if s != [] && !le(x, s[0]) {
      InsertKeeps(x, s[1..], le);
      assert s == [s[0]] + s[1..];
    }
  }

  lemma {:induction false} SortedKeeps<T>(s: seq<T>, le: (T, T) -> bool)
    ensures multiset(Sorted(s, le)) == multiset(s)
  {
    if s != [] {
      SortedKeeps(s[1..], le);
      InsertKeeps(s[0], Sorted(s[1..], le), le);
      assert s == [s[0]] + s[1..];
    }
  }

  ghost predicate Ordered<T(!new)>(s: seq<T>, le: (T, T) -> bool)
  {
    forall i, j :: 0 <= i < j < |s| ==> le(s[i], s[j])
  }

  /** Any two can be compared, and comparisons chain. */
  ghost predicate TotalOrder<T(!new)>(le: (T, T) -> bool)
  {
    (forall x, y :: le(x, y) || le(y, x)) && forall x, y, z :: le(x, y) && le(y, z) ==> le(x, z)
  }

  lemma {:induction false} InsertOrdered<T(!new)>(x: T, s: seq<T>, le: (T, T) -> bool)
    requires TotalOrder(le) && Ordered(s, le)
    ensures Ordered(Insert(x, s, le), le)
  {
    if s != [] && !le(x, s[0]) {
      var rest := Insert(x, s[1..], le);
      InsertOrdered(x, s[1..], le);
      InsertKeeps(x, s[1..], le);
      forall i | 0 <= i < |rest| ensures le(s[0], rest[i]) {
        assert rest[i] in multiset(rest);
        assert rest[i] == x || rest[i] in s[1..];
      }
    } else {
      forall i | 0 <= i < |s| ensures le(x, s[i]) {
        assert le(x, s[0]);
      }
    }
  }

  lemma {:induction false} SortedOrdered<T(!new)>(s: seq<T>, le: (T, T) -> bool)
    requires TotalOrder(le)
    ensures Ordered(Sorted(s, le), le)
  {
    if s != [] {
      SortedOrdered(s[1..], le);
      InsertOrdered(s[0], Sorted(s[1..], le), le);
    }
  }

  /** Where the other order has the first element. */
  lemma Without<T>(u: seq<T>, v: seq<T>) returns (i: nat)
    requires u != [] && multiset(u) == multiset(v)
    ensures i < |v| && v[i] == u[0] && multiset(u[1..]) == multiset(v[..i] + v[i + 1..])
  {
    assert u[0] in multiset(v);
    i :| i < |v| && v[i] == u[0];
    assert v == v[..i] + ([v[i]] + v[i + 1..]);
    assert u == [u[0]] + u[1..];
    assert multiset(v[..i] + v[i + 1..]) == multiset(v) - multiset{v[i]};
  }

  // ----- powers of two

  function P2(n: nat): (r: nat)
    ensures r >= 1
  {
    if n == 0 then 1 else 2 * P2(n - 1)
  }

  lemma {:induction false} P2Sum(m: nat, n: nat)
    ensures P2(m + n) == P2(m) * P2(n)
  {
    if m > 0 {
      P2Sum(m - 1, n);
    }
  }
}
