/** Token transfers, as lists. */
module Transfers {
  import opened Lists

  datatype Transfer = Transfer(to: nat, amount: nat)

  function Recipients(ts: seq<Transfer>): set<nat> { set t | t in ts :: t.to }

  /** The amounts paid to an address, in order. */
  function To(a: nat, ts: seq<Transfer>): seq<nat>
  {
    if ts == [] then [] else (if ts[0].to == a then [ts[0].amount] else []) + To(a, ts[1..])
  }

  lemma {:induction false} ToConcat(a: nat, u: seq<Transfer>, v: seq<Transfer>)
    ensures To(a, u + v) == To(a, u) + To(a, v)
  {
    if u == [] {
      assert u + v == v;
    } else {
      ToConcat(a, u[1..], v);
      assert (u + v)[1..] == u[1..] + v;
      Associative(if u[0].to == a then [u[0].amount] else [], To(a, u[1..]), To(a, v));
    }
  }

  lemma {:induction false} ToNone(a: nat, ts: seq<Transfer>)
    ensures To(a, ts) == [] <==> forall t :: t in ts ==> t.to != a
  {
    if ts != [] {
      ToNone(a, ts[1..]);
      assert ts == [ts[0]] + ts[1..];
    }
  }
}
