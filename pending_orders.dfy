/**
 * screen/PendingOrderScreen.kt: the one-shot load of `Order_details`, which
 * files every decoded order under the uid of the partition it was read
 * from, and the Accept handler, which copies an order to `Completed_Order`
 * and only then deletes it from `Order_details`.
 */
module PendingOrders {
  import opened Optional
  import opened Firebase
  import opened Records
  import opened Database

  /** `it.user.uid = userId`: the order with its embedded uid overwritten. */
  function Stamp(o: OrderDetail, uid: string): OrderDetail
  {
    o.(user := o.user.(uid := uid))
  }

  /** Stamping overwrites the uid and keeps every other field of the order and of its user. */
  lemma StampOverwritesUid(o: OrderDetail, uid: string)
    ensures Stamp(o, uid).user.uid == uid
    ensures Stamp(o, uid).user.(uid := o.user.uid) == o.user && Stamp(o, uid).(user := o.user) == o
  {
  }

  /** The decoded orders of one user partition, each stamped with that partition's key. */
  function StampedOrders(cs: seq<Child<OrderDetail>>, uid: string): seq<OrderDetail>
  {
    if cs == [] then []
    else
      StampedOrders(cs[..|cs| - 1], uid)
      + (match cs[|cs| - 1].value case Some(o) => [Stamp(o, uid)] case None => [])
  }

  /** What one partition adds to the list: nothing when it has no key, else its stamped orders. */
  function PartitionOrders(p: Partition<OrderDetail>): seq<OrderDetail>
  {
    match p.key
    case Some(uid) => StampedOrders(p.children, uid)
    case None => []
  }

  /** The list the load produces: every keyed partition's stamped orders, partition after partition. */
  function Loaded(snap: Snapshot<OrderDetail>): seq<OrderDetail>
  {
    if snap == [] then [] else Loaded(snap[..|snap| - 1]) + PartitionOrders(snap[|snap| - 1])
  }

  /** `onDataChange` of the single-value listener: the nested loops that fill `tempList`. */
  method Collect(snap: Snapshot<OrderDetail>) returns (tempList: seq<OrderDetail>)
    ensures tempList == Loaded(snap)
  {
    tempList := [];
    var i := 0;
    while i < |snap|
      invariant 0 <= i <= |snap|
      invariant tempList == Loaded(snap[..i])
    {
      assert snap[..i + 1][..i] == snap[..i];
      if snap[i].key.None? {
        i := i + 1;
        continue;
      }
      var userId := snap[i].key.value;
      var children := snap[i].children;
      var j := 0;
      while j < |children|
        invariant 0 <= j <= |children|
        invariant tempList == Loaded(snap[..i]) + StampedOrders(children[..j], userId)
      {
        assert children[..j + 1][..j] == children[..j];
        var order := children[j].value;
        if order.Some? {
          tempList := tempList + [Stamp(order.value, userId)];
        }
        j := j + 1;
      }
      assert children[..j] == children;
      i := i + 1;
    }
    assert snap[..i] == snap;
  }

  lemma {:induction false} StampedMembership(cs: seq<Child<OrderDetail>>, uid: string, o: OrderDetail)
    ensures o in StampedOrders(cs, uid) <==>
      exists j :: 0 <= j < |cs| && cs[j].value.Some? && o == Stamp(cs[j].value.value, uid)
  {
    if cs != [] {
      var n := |cs| - 1;
      StampedMembership(cs[..n], uid, o);
      if o in StampedOrders(cs[..n], uid) {
        var j :| 0 <= j < n && cs[..n][j].value.Some? && o == Stamp(cs[..n][j].value.value, uid);
        assert cs[j] == cs[..n][j];
      }
      if exists j :: 0 <= j < |cs| && cs[j].value.Some? && o == Stamp(cs[j].value.value, uid) {
        var j :| 0 <= j < |cs| && cs[j].value.Some? && o == Stamp(cs[j].value.value, uid);
        if j < n { assert cs[..n][j] == cs[j]; }
      }
    }
  }

  lemma PartitionMembership(p: Partition<OrderDetail>, o: OrderDetail)
    ensures o in PartitionOrders(p) <==>
      exists j :: 0 <= j < |p.children| && p.key.Some? && p.children[j].value.Some?
        && o == Stamp(p.children[j].value.value, p.key.value)
  {
    if p.key.Some? {
      StampedMembership(p.children, p.key.value, o);
    }
  }

  /** `o` is the record at child `j` of partition `i`, decoded and stamped with that partition's key. */
  ghost predicate StampedAt(snap: Snapshot<OrderDetail>, i: int, j: int, o: OrderDetail)
  {
    && 0 <= i < |snap| && snap[i].key.Some?
    && 0 <= j < |snap[i].children| && snap[i].children[j].value.Some?
    && o == Stamp(snap[i].children[j].value.value, snap[i].key.value)
  }

  /**
   * An order is loaded exactly when it is a decoded record of a partition
   * with a key, stamped with that key: records that decode to null and
   * partitions without a key contribute nothing.
   */
  lemma {:induction false} LoadedMembership(snap: Snapshot<OrderDetail>, o: OrderDetail)
    ensures o in Loaded(snap) <==> exists i, j :: StampedAt(snap, i, j, o)
  {
    if snap != [] {
      var n := |snap| - 1;
      var front := snap[..n];
      LoadedMembership(front, o);
      PartitionMembership(snap[n], o);
      LoadedLast(snap);
      if o in Loaded(front) {
        var i, j :| StampedAt(front, i, j, o);
        assert front[i] == snap[i];
        assert StampedAt(snap, i, j, o);
      } else if o in PartitionOrders(snap[n]) {
        var j :| 0 <= j < |snap[n].children| && snap[n].key.Some? && snap[n].children[j].value.Some?
          && o == Stamp(snap[n].children[j].value.value, snap[n].key.value);
        assert StampedAt(snap, n, j, o);
      }
      if exists i, j :: StampedAt(snap, i, j, o) {
        var i, j :| StampedAt(snap, i, j, o);
        if i < n {
          assert front[i] == snap[i];
          assert StampedAt(front, i, j, o);
        }
      }
    }
  }

  /** Every loaded order carries, as its uid, the key of a partition of the snapshot. */
  lemma LoadedUidIsPartitionKey(snap: Snapshot<OrderDetail>, o: OrderDetail)
    requires o in Loaded(snap)
    ensures exists i :: 0 <= i < |snap| && snap[i].key == Some(o.user.uid)
  {
    LoadedMembership(snap, o);
    var i, j :| StampedAt(snap, i, j, o);
    assert snap[i].key == Some(o.user.uid);
  }

  lemma {:induction false} LoadedAppend(s1: Snapshot<OrderDetail>, s2: Snapshot<OrderDetail>)
    ensures Loaded(s1 + s2) == Loaded(s1) + Loaded(s2)
  {
    if s2 == [] {
      assert s1 + s2 == s1;
    } else {
      var n := |s2| - 1;
      var s := s1 + s2;
      assert s[..|s| - 1] == s1 + s2[..n];
      assert s[|s| - 1] == s2[n];
      calc {
        Loaded(s);
        { LoadedLast(s); }
        Loaded(s1 + s2[..n]) + PartitionOrders(s2[n]);
        { LoadedAppend(s1, s2[..n]); }
        Loaded(s1) + Loaded(s2[..n]) + PartitionOrders(s2[n]);
        Loaded(s1) + (Loaded(s2[..n]) + PartitionOrders(s2[n]));
        { LoadedLast(s2); }
        Loaded(s1) + Loaded(s2);
      }
    }
  }

  lemma LoadedLast(s: Snapshot<OrderDetail>)
    requires s != []
    ensures Loaded(s) == Loaded(s[..|s| - 1]) + PartitionOrders(s[|s| - 1])
  {
  }

  /** `userSnap.key ?: continue`: a partition without a key adds nothing to the list, wherever it stands. */
  lemma KeylessPartitionIgnored(s1: Snapshot<OrderDetail>, cs: seq<Child<OrderDetail>>, s2: Snapshot<OrderDetail>)
    ensures Loaded(s1 + [Partition(None, cs)] + s2) == Loaded(s1 + s2)
  {
    var keyless := [Partition(None, cs)];
    assert keyless[..0] == [];
    LoadedLast(keyless);
    assert Loaded(keyless) == [];
    LoadedAppend(s1 + keyless, s2);
    LoadedAppend(s1, keyless);
    LoadedAppend(s1, s2);
  }

  /** `orders.filter { it.orderId != orderId }` */
  function WithoutOrder(orders: seq<OrderDetail>, orderId: string): (r: seq<OrderDetail>)
    ensures forall o :: o in r <==> o in orders && o.orderId != orderId
    ensures |r| <= |orders|
  {
    if orders == [] then []
    else (if orders[0].orderId != orderId then [orders[0]] else []) + WithoutOrder(orders[1..], orderId)
  }

  /** Filtering keeps the relative order: it distributes over concatenation. */
  lemma {:induction false} WithoutOrderAppend(a: seq<OrderDetail>, b: seq<OrderDetail>, orderId: string)
    ensures WithoutOrder(a + b, orderId) == WithoutOrder(a, orderId) + WithoutOrder(b, orderId)
  {
    if a != [] {
      assert (a + b)[1..] == a[1..] + b;
      WithoutOrderAppend(a[1..], b, orderId);
    } else {
      assert a + b == b;
    }
  }

  /** A list holding no order with that id comes back unchanged. */
  lemma {:induction false} WithoutAbsentOrder(orders: seq<OrderDetail>, orderId: string)
    requires forall i :: 0 <= i < |orders| ==> orders[i].orderId != orderId
    ensures WithoutOrder(orders, orderId) == orders
  {
    if orders != [] {
      WithoutAbsentOrder(orders[1..], orderId);
    }
  }

  /** After a completed accept, the order is in `Completed_Order` only, and no other order moved. */
  lemma AcceptKeepsExclusive(pending: Table<OrderDetail>, completed: Table<OrderDetail>, o: OrderDetail)
    requires Exclusive(pending, completed)
    ensures Exclusive(RemoveValue(pending, o.user.uid, o.orderId), SetValue(completed, o.user.uid, o.orderId, o))
  {
    var pending', completed' := RemoveValue(pending, o.user.uid, o.orderId), SetValue(completed, o.user.uid, o.orderId, o);
    forall p, k ensures !(Cell(pending', p, k).Some? && Cell(completed', p, k).Some?) {
      if (p, k) != (o.user.uid, o.orderId) {
        assert Cell(pending', p, k) == Cell(pending, p, k);
      }
    }
  }

  /** A failed delete after a successful write leaves a pending order in both collections. */
  lemma FailedDeleteDuplicates(pending: Table<OrderDetail>, completed: Table<OrderDetail>, o: OrderDetail)
    requires Cell(pending, o.user.uid, o.orderId).Some?
    ensures !Exclusive(pending, SetValue(completed, o.user.uid, o.orderId, o))
  {
    assert Cell(SetValue(completed, o.user.uid, o.orderId, o), o.user.uid, o.orderId).Some?;
  }

  /** After a completed accept, a snapshot of `Completed_Order` lists the accepted order as it was written. */
  lemma AcceptedIsListedCompleted(completed: Table<OrderDetail>, o: OrderDetail, snap: Snapshot<OrderDetail>)
    requires SnapshotOf(snap, SetValue(completed, o.user.uid, o.orderId, o))
    ensures o in AllDecoded(snap)
  {
    StoredIsDecoded(snap, SetValue(completed, o.user.uid, o.orderId, o), o.user.uid, o.orderId, o);
  }

  /**
   * After a completed accept, when every pending order is filed under its own
   * orderId, reloading `Order_details` yields no order with the accepted
   * order's uid and orderId.
   */
  lemma AcceptedIsNotReloadedPending(pending: Table<OrderDetail>, o: OrderDetail, snap: Snapshot<OrderDetail>)
    requires KeyedByOrderId(pending)
    requires SnapshotOf(snap, RemoveValue(pending, o.user.uid, o.orderId))
    ensures forall o' :: o' in Loaded(snap) ==> !(o'.user.uid == o.user.uid && o'.orderId == o.orderId)
  {
    var t := RemoveValue(pending, o.user.uid, o.orderId);
    forall o' | o' in Loaded(snap) ensures !(o'.user.uid == o.user.uid && o'.orderId == o.orderId) {
      LoadedMembership(snap, o');
      var i, j :| StampedAt(snap, i, j, o');
      var p, k, r := snap[i].key.value, snap[i].children[j].key.value, snap[i].children[j].value.value;
      assert Cell(t, p, k) == Some(r);
      if (p, k) != (o.user.uid, o.orderId) {
        assert Cell(pending, p, k) == Some(r);
        assert r.orderId == k;
        assert o'.user.uid == p && o'.orderId == k;
      }
    }
  }

  /**
   * Accept addresses the pending record by the order's `orderId` field, not by
   * the key it was loaded from: an order filed at U/K whose orderId is X is
   * copied to `Completed_Order/U/X`, but the delete of `Order_details/U/X`
   * misses it, and the next load lists it again.
   */
  lemma MisfiledOrderSurvivesAccept()
    ensures var o := OrderDetail("X", None, User("U", "", "", ""), [], "0");
      var pending := map["U" := map["K" := o]];
      var snap := [Partition(Some("U"), [Child(Some("K"), Some(o))])];
      && RemoveValue(pending, o.user.uid, o.orderId) == pending
      && SnapshotOf(snap, RemoveValue(pending, o.user.uid, o.orderId))
      && o in Loaded(snap)
  {
    var o := OrderDetail("X", None, User("U", "", "", ""), [], "0");
    var pending := map["U" := map["K" := o]];
    var snap := [Partition(Some("U"), [Child(Some("K"), Some(o))])];
    var t := RemoveValue(pending, o.user.uid, o.orderId);
    forall p, k ensures Cell(t, p, k) == Cell(pending, p, k) {
      if (p, k) == ("U", "X") {
        assert "X" !in pending["U"];
      }
    }
    assert NoEmptyPartition(pending) by {
      assert "K" in pending["U"];
    }
    SameCellsSameTable(t, pending);
    forall p, k | Cell(t, p, k).Some? ensures Lists(snap, p, k, Cell(t, p, k).value) {
      assert p == "U" && k == "K";
      assert snap[0].children[0] == Child(Some(k), Some(Cell(t, p, k).value));
    }
    assert StampedAt(snap, 0, 0, o);
    LoadedMembership(snap, o);
  }

  class PendingOrderScreen {
    const db: Store
    var orders: seq<OrderDetail>

    constructor(db: Store)
      ensures this.db == db && orders == []
    {
      this.db := db;
      orders := [];
    }

    /** `onDataChange`: the loaded list replaces `orders`. */
    method OnDataChange(snap: Snapshot<OrderDetail>)
      modifies this`orders
      ensures orders == Loaded(snap)
    {
      orders := Collect(snap);
    }

    /**
     * `onAcceptClicked(selected)`: write the order to `Completed_Order/uid/orderId`;
     * only if that succeeded, delete `Order_details/uid/orderId`; only if that
     * succeeded too, drop the order from the local list.
     */
    method Accept(selected: OrderDetail, writeOk: bool, deleteOk: bool)
      requires db.Valid()
      modifies this`orders, db`pending, db`completed
      ensures db.Valid()
      ensures var uid, id := selected.user.uid, selected.orderId;
        && db.completed == (if writeOk then SetValue(old(db.completed), uid, id, selected) else old(db.completed))
        && db.pending == (if writeOk && deleteOk then RemoveValue(old(db.pending), uid, id) else old(db.pending))
        && orders == (if writeOk && deleteOk then WithoutOrder(old(orders), id) else old(orders))
      // the outcomes, cell by cell
      ensures var uid, id := selected.user.uid, selected.orderId;
        && (writeOk && deleteOk ==>
              Cell(db.completed, uid, id) == Some(selected) && Cell(db.pending, uid, id) == None
              && forall o :: o in orders ==> o.orderId != id)
        && (writeOk && !deleteOk ==>
              Cell(db.completed, uid, id) == Some(selected) && Cell(db.pending, uid, id) == Cell(old(db.pending), uid, id))
        && (!writeOk ==> db.completed == old(db.completed) && db.pending == old(db.pending))
      ensures forall p, k :: (p, k) != (selected.user.uid, selected.orderId) ==>
        Cell(db.pending, p, k) == Cell(old(db.pending), p, k) && Cell(db.completed, p, k) == Cell(old(db.completed), p, k)
    {
      var userId := selected.user.uid;
      db.SetCompletedOrder(userId, selected.orderId, selected, writeOk);
      if writeOk {
        db.RemovePendingOrder(userId, selected.orderId, deleteOk);
        if deleteOk {
          orders := WithoutOrder(orders, selected.orderId);
        }
      }
    }
  }
}
