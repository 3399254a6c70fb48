/**
 * The three collections of the realtime database the admin app works on,
 * and the backend calls it makes on them. Each call takes, as `ok`, whether
 * the backend carried it out; a failed call changes nothing.
 */
module Database {
  import opened Optional
  import opened Firebase
  import opened Records

  /**
   * `updateChildren({"price": price, "description": description})` at p/k:
   * those two fields are merged into the record there (a missing record is
   * created with every other field empty); no other record changes.
   */
  function UpdatePriceAndDescription(t: Table<Furniture>, p: string, k: string, price: string, description: string)
    : (t': Table<Furniture>)
    ensures Cell(t', p, k).Some?
    ensures Cell(t', p, k).value.price == price && Cell(t', p, k).value.description == description
    ensures forall p', k' :: (p', k') != (p, k) ==> Cell(t', p', k') == Cell(t, p', k')
    ensures NoEmptyPartition(t) ==> NoEmptyPartition(t')
  {
    var f := Cell(t, p, k).GetOr(EmptyFurniture);
    SetValue(t, p, k, f.(price := price, description := description))
  }

  /** An edit leaves every field other than price and description as it was. */
  lemma EditKeepsOtherFields(t: Table<Furniture>, p: string, k: string, price: string, description: string)
    requires Cell(t, p, k).Some?
    ensures var f, g := Cell(t, p, k).value, Cell(UpdatePriceAndDescription(t, p, k, price, description), p, k).value;
      && g.id == f.id && g.name == f.name && g.images == f.images
      && g.glbModelUrl == f.glbModelUrl && g.category == f.category
  {
  }

  /** No order is both pending and completed at the same path. */
  ghost predicate Exclusive(pending: Table<OrderDetail>, completed: Table<OrderDetail>)
  {
    forall p, k :: !(Cell(pending, p, k).Some? && Cell(completed, p, k).Some?)
  }

  /** Every record of the table is filed under its own orderId. */
  ghost predicate KeyedByOrderId(t: Table<OrderDetail>)
  {
    forall p, k :: Cell(t, p, k).Some? ==> Cell(t, p, k).value.orderId == k
  }

  class Store {
    var furniture: Table<Furniture>
    var pending: Table<OrderDetail>
    var completed: Table<OrderDetail>

    ghost predicate Valid()
      reads this
    {
      NoEmptyPartition(furniture) && NoEmptyPartition(pending) && NoEmptyPartition(completed)
    }

    constructor(furniture: Table<Furniture>, pending: Table<OrderDetail>, completed: Table<OrderDetail>)
      requires NoEmptyPartition(furniture) && NoEmptyPartition(pending) && NoEmptyPartition(completed)
      ensures Valid()
      ensures this.furniture == furniture && this.pending == pending && this.completed == completed
    {
      this.furniture := furniture;
      this.pending := pending;
      this.completed := completed;
    }

    /** `furniture/category/key.setValue(f)` */
    method SetFurniture(category: string, key: string, f: Furniture, ok: bool)
      requires Valid()
      modifies this`furniture
      ensures Valid()
      ensures furniture == if ok then SetValue(old(furniture), category, key, f) else old(furniture)
    {
      if ok {
        furniture := SetValue(furniture, category, key, f);
      }
    }

    /** `furniture/category/id.updateChildren(price, description)` */
    method UpdateFurniture(category: string, id: string, price: string, description: string, ok: bool)
      requires Valid()
      modifies this`furniture
      ensures Valid()
      ensures furniture ==
        if ok then UpdatePriceAndDescription(old(furniture), category, id, price, description) else old(furniture)
    {
      if ok {
        furniture := UpdatePriceAndDescription(furniture, category, id, price, description);
      }
    }

    /** `furniture/category/id.removeValue()` */
    method RemoveFurniture(category: string, id: string, ok: bool)
      requires Valid()
      modifies this`furniture
      ensures Valid()
      ensures furniture == if ok then RemoveValue(old(furniture), category, id) else old(furniture)
    {
      if ok {
        furniture := RemoveValue(furniture, category, id);
      }
    }

    /** `Completed_Order/uid/orderId.setValue(o)` */
    method SetCompletedOrder(uid: string, orderId: string, o: OrderDetail, ok: bool)
      requires Valid()
      modifies this`completed
      ensures Valid()
      ensures completed == if ok then SetValue(old(completed), uid, orderId, o) else old(completed)
    {
      if ok {
        completed := SetValue(completed, uid, orderId, o);
      }
    }

    /** `Order_details/uid/orderId.removeValue()` */
    method RemovePendingOrder(uid: string, orderId: string, ok: bool)
      requires Valid()
      modifies this`pending
      ensures Valid()
      ensures pending == if ok then RemoveValue(old(pending), uid, orderId) else old(pending)
    {
      if ok {
        pending := RemoveValue(pending, uid, orderId);
      }
    }
  }
}
