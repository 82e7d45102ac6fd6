/**
 * The greedy withdrawal drain both back ends share: walk the balances in some
 * visiting order, take from each positive balance as much as is still owed,
 * and stop taking once the request is met. The visiting order is a parameter:
 * the Node store walks its tables in insertion order, the PHP plugin walks its
 * positive balances largest first. Everything proved here holds for any order.
 */
module Allocation {
  import opened Money

  /**
   * What one table gives up while `remaining` is still owed: nothing once the
   * request is met or when the balance is not positive, otherwise the smaller
   * of the balance and what is owed.
   */
  function Deduction(balance: Cents, remaining: Cents): (d: Cents)
    ensures d >= 0
    ensures d == 0 <==> remaining <= 0 || balance <= 0
    ensures d > 0 ==> d <= balance && d <= remaining && (d == balance || d == remaining)
  {
    if remaining <= 0 || balance <= 0 then 0 else Min(balance, remaining)
  }

  /**
   * The balances after draining `amount` from `bs`, visited in sequence order;
   * position `k` of the result is the new balance of position `k`.
   */
  function Allocate(bs: seq<Cents>, amount: Cents): (nb: seq<Cents>)
    ensures |nb| == |bs|
    ensures forall k :: 0 <= k < |bs| && bs[k] <= 0 ==> nb[k] == bs[k]
    ensures forall k :: 0 <= k < |bs| && bs[k] > 0 ==> 0 <= nb[k] <= bs[k]
    ensures amount <= 0 ==> nb == bs
    decreases |bs|
  {
    if |bs| == 0 then []
    else
      var d := Deduction(bs[0], amount);
      [bs[0] - d] + Allocate(bs[1..], amount - d)
  }

  /** The drain of a list with a known first balance. */
  lemma AllocateCons(b: Cents, bs: seq<Cents>, amount: Cents)
    ensures Allocate([b] + bs, amount) == [b - Deduction(b, amount)] + Allocate(bs, amount - Deduction(b, amount))
  {
    var s := [b] + bs;
    assert s[0] == b && s[1..] == bs;
    assert |s| > 0;
  }

  /** How much the drain takes in total. */
  function Taken(bs: seq<Cents>, amount: Cents): Cents
  {
    Sum(bs) - Sum(Allocate(bs, amount))
  }

  /** What the drain takes is the first deduction plus what it takes from the rest. */
  lemma TakenCons(bs: seq<Cents>, amount: Cents)
    requires |bs| > 0
    ensures Taken(bs, amount) == Deduction(bs[0], amount) + Taken(bs[1..], amount - Deduction(bs[0], amount))
  {
    var d := Deduction(bs[0], amount);
    var rest := Allocate(bs[1..], amount - d);
    assert Allocate(bs, amount) == [bs[0] - d] + rest;
    assert Sum([bs[0] - d] + rest) == bs[0] - d + Sum(([bs[0] - d] + rest)[1..]);
    assert ([bs[0] - d] + rest)[1..] == rest;
  }

  /**
   * The drain takes exactly what was asked when the positive balances cover
   * it, and all of the positive balances otherwise; nothing for a request that
   * is not positive. The visiting order does not matter.
   */
  lemma {:induction false} TakenIsCappedAmount(bs: seq<Cents>, amount: Cents)
    ensures Taken(bs, amount) == if amount <= 0 then 0 else Min(amount, SumPos(bs))
    decreases |bs|
  {
    if |bs| > 0 {
      var d := Deduction(bs[0], amount);
      TakenIsCappedAmount(bs[1..], amount - d);
      TakenCons(bs, amount);
    }
  }

  /**
   * Conservation: when the balances total at least the amount, they drop by
   * exactly the amount, whatever the order they are visited in.
   */
  lemma {:induction false} Conservation(bs: seq<Cents>, amount: Cents)
    requires 0 <= amount <= Sum(bs)
    ensures Sum(Allocate(bs, amount)) == Sum(bs) - amount
  {
    TakenIsCappedAmount(bs, amount);
    SumAtMostSumPos(bs);
  }

  /**
   * Greedy order: once the balances visited before position `k` already
   * cover the amount, position `k` and everything after it is left alone.
   */
  lemma {:induction false} UntouchedOnceCovered(bs: seq<Cents>, amount: Cents, k: nat)
    requires k <= |bs|
    requires amount <= SumPos(bs[..k])
    ensures Allocate(bs, amount)[k..] == bs[k..]
    decreases k
  {
    if k > 0 {
      var d := Deduction(bs[0], amount);
      assert bs[..k] == [bs[0]] + bs[1..][..k - 1];
      UntouchedOnceCovered(bs[1..], amount - d, k - 1);
      assert Allocate(bs, amount)[k..] == Allocate(bs[1..], amount - d)[k - 1..];
    }
  }

  /** The example of a three-table account: 300, 100 and 50 drained by 350 become 0, 50 and 50. */
  lemma DrainExample()
    ensures Allocate([30000, 10000, 5000], 35000) == [0, 5000, 5000]
  {
  }
}
