/**
 * screen/CompletedOrderScreen.kt: the one-shot load of `Completed_Order`,
 * which keeps every decoded order as it is stored (no uid is stamped).
 */
module CompletedOrders {
  import opened Firebase
  import opened Records

  /** The nested loops of `onDataChange` that fill `orders`. */
  method Collect(snap: Snapshot<OrderDetail>) returns (orders: seq<OrderDetail>)
    ensures orders == AllDecoded(snap)
  {
    orders := [];
    var i := 0;
    while i < |snap|
      invariant 0 <= i <= |snap|
      invariant orders == AllDecoded(snap[..i])
    {
      assert snap[..i + 1][..i] == snap[..i];
      var children := snap[i].children;
      var j := 0;
      while j < |children|
        invariant 0 <= j <= |children|
        invariant orders == AllDecoded(snap[..i]) + Decoded(children[..j])
      {
        assert children[..j + 1][..j] == children[..j];
        var order := children[j].value;
        if order.Some? {
          orders := orders + [order.value];
        }
        j := j + 1;
      }
      assert children[..j] == children;
      i := i + 1;
    }
    assert snap[..i] == snap;
  }

  class CompletedOrderScreen {
    var completedOrders: seq<OrderDetail>
    var isLoading: bool

    constructor()
      ensures completedOrders == [] && isLoading
    {
      completedOrders := [];
      isLoading := true;
    }

    /** `onDataChange`: the decoded orders replace the list wholesale and loading ends. */
    method OnDataChange(snap: Snapshot<OrderDetail>)
      modifies this
      ensures completedOrders == AllDecoded(snap) && !isLoading
    {
      completedOrders := Collect(snap);
      isLoading := false;
    }

    /** `onCancelled`: loading ends, the list is kept. */
    method OnCancelled()
      modifies this`isLoading
      ensures !isLoading
    {
      isLoading := false;
    }
  }
}
