/**
 * navigation/HomeScreen.kt: the dashboard's live counters of pending and
 * completed orders.
 */
module Home {
  import opened Optional
  import opened Firebase
  import opened Records
  import PendingOrders

  /** The nested loops of both `onDataChange` callbacks: count the orders that decode, from zero. */
  method CountOrders(snap: Snapshot<OrderDetail>) returns (count: nat)
    ensures count == |AllDecoded(snap)|
  {
    count := 0;
    var i := 0;
    while i < |snap|
      invariant 0 <= i <= |snap|
      invariant count == |AllDecoded(snap[..i])|
    {
      assert snap[..i + 1][..i] == snap[..i];
      var children := snap[i].children;
      var j := 0;
      while j < |children|
        invariant 0 <= j <= |children|
        invariant count == |AllDecoded(snap[..i])| + |Decoded(children[..j])|
      {
        assert children[..j + 1][..j] == children[..j];
        if children[j].value.Some? {
          count := count + 1;
        }
        j := j + 1;
      }
      assert children[..j] == children;
      i := i + 1;
    }
    assert snap[..i] == snap;
  }

  /** Every order's `totalPrice` passes `toDouble()`, as `isNumber` decides. */
  predicate AllPricesParse(orders: seq<OrderDetail>, isNumber: string -> bool)
  {
    forall i :: 0 <= i < |orders| ==> isNumber(orders[i].totalPrice)
  }

  /**
   * The nested loops of the `Completed_Order` callback, counts only: each
   * decoded order's `totalPrice.toDouble()` is evaluated before it is
   * counted, and the first one that throws ends the callback (`thrown`).
   */
  method CountCompleted(snap: Snapshot<OrderDetail>, isNumber: string -> bool) returns (count: nat, thrown: bool)
    ensures thrown <==> !AllPricesParse(AllDecoded(snap), isNumber)
    ensures !thrown ==> count == |AllDecoded(snap)|
  {
    count, thrown := 0, false;
    var i := 0;
    while i < |snap|
      invariant 0 <= i <= |snap|
      invariant count == |AllDecoded(snap[..i])| && AllPricesParse(AllDecoded(snap[..i]), isNumber)
    {
      assert snap[..i + 1][..i] == snap[..i];
      var children := snap[i].children;
      var j := 0;
      while j < |children|
        invariant 0 <= j <= |children|
        invariant count == |AllDecoded(snap[..i])| + |Decoded(children[..j])|
        invariant AllPricesParse(AllDecoded(snap[..i]) + Decoded(children[..j]), isNumber)
      {
        assert children[..j + 1][..j] == children[..j];
        var order := children[j].value;
        if order.Some? {
          if !isNumber(order.value.totalPrice) {
            AllDecodedMembership(snap, order.value);
            assert HoldsAt(snap, i, j, order.value);
            thrown := true;
            return;
          }
          count := count + 1;
        }
        DecodedLast(children[..j + 1]);
        PricesParseAppend(AllDecoded(snap[..i]), Decoded(children[..j]),
          match order case Some(o) => [o] case None => [], isNumber);
        j := j + 1;
      }
      assert children[..j] == children;
      AllDecodedLast(snap[..i + 1]);
      i := i + 1;
    }
    assert snap[..i] == snap;
  }

  lemma PricesParseAppend(a: seq<OrderDetail>, b: seq<OrderDetail>, c: seq<OrderDetail>, isNumber: string -> bool)
    requires AllPricesParse(a + b, isNumber) && AllPricesParse(c, isNumber)
    ensures AllPricesParse(a + (b + c), isNumber)
  {
    assert a + (b + c) == (a + b) + c;
  }

  /** The count is the sum, over the partitions, of each one's decodable orders. */
  lemma {:induction false} CountSplits(s1: Snapshot<OrderDetail>, s2: Snapshot<OrderDetail>)
    ensures |AllDecoded(s1 + s2)| == |AllDecoded(s1)| + |AllDecoded(s2)|
  {
    AllDecodedAppend(s1, s2);
  }

  /** A partition holding no decodable order adds nothing to the count, wherever it stands. */
  lemma EmptyPartitionCountsZero(s1: Snapshot<OrderDetail>, p: Partition<OrderDetail>, s2: Snapshot<OrderDetail>)
    requires forall j :: 0 <= j < |p.children| ==> p.children[j].value == None
    ensures |AllDecoded(s1 + [p] + s2)| == |AllDecoded(s1 + s2)|
  {
    NothingDecoded(p.children);
    AllDecodedAppend(s1 + [p], s2);
    AllDecodedAppend(s1, [p]);
    AllDecodedAppend(s1, s2);
    assert [p][..0] == [];
  }

  lemma {:induction false} NothingDecoded(cs: seq<Child<OrderDetail>>)
    requires forall j :: 0 <= j < |cs| ==> cs[j].value == None
    ensures Decoded(cs) == []
  {
    if cs != [] {
      NothingDecoded(cs[..|cs| - 1]);
    }
  }

  /**
   * When every partition has a key, the dashboard's pending count is the
   * length of the list the pending screen loads from the same snapshot.
   */
  lemma {:induction false} PendingCountMatchesPendingList(snap: Snapshot<OrderDetail>)
    requires forall i :: 0 <= i < |snap| ==> snap[i].key.Some?
    ensures |AllDecoded(snap)| == |PendingOrders.Loaded(snap)|
  {
    if snap != [] {
      var n := |snap| - 1;
      PendingCountMatchesPendingList(snap[..n]);
      StampedLength(snap[n].children, snap[n].key.value);
      PendingOrders.LoadedLast(snap);
    }
  }

  lemma {:induction false} StampedLength(cs: seq<Child<OrderDetail>>, uid: string)
    ensures |PendingOrders.StampedOrders(cs, uid)| == |Decoded(cs)|
  {
    if cs != [] {
      StampedLength(cs[..|cs| - 1], uid);
    }
  }

  class HomeScreen {
    /** Whether `String.toDouble` accepts its argument. */
    const isNumber: string -> bool
    var pendingOrdersCount: nat
    var completedOrdersCount: nat

    constructor(isNumber: string -> bool)
      ensures this.isNumber == isNumber
      ensures pendingOrdersCount == 0 && completedOrdersCount == 0
    {
      this.isNumber := isNumber;
      pendingOrdersCount, completedOrdersCount := 0, 0;
    }

    /** The `Order_details` listener: the count is recomputed from the snapshot alone. */
    method OnPendingOrders(snap: Snapshot<OrderDetail>)
      modifies this`pendingOrdersCount
      ensures pendingOrdersCount == |AllDecoded(snap)|
    {
      pendingOrdersCount := CountOrders(snap);
    }

    /**
     * The `Completed_Order` listener: the count is recomputed from the
     * snapshot alone, unless some order's total price does not parse, in
     * which case the callback throws before the count is assigned.
     */
    method OnCompletedOrders(snap: Snapshot<OrderDetail>)
      modifies this`completedOrdersCount
      ensures completedOrdersCount ==
        if AllPricesParse(AllDecoded(snap), isNumber) then |AllDecoded(snap)| else old(completedOrdersCount)
    {
      var count, thrown := CountCompleted(snap, isNumber);
      if !thrown {
        completedOrdersCount := count;
      }
    }

    /** Both listeners' `onCancelled` are empty: the dashboard keeps its values. */
    method OnCancelled()
      ensures pendingOrdersCount == old(pendingOrdersCount) && completedOrdersCount == old(completedOrdersCount)
    {
    }
  }
}
