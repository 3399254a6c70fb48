/**
 * screen/ViewFurnitureScreen.kt: the live listener that flattens the
 * `furniture` collection, taking each item's id from its storage key; the
 * edit dialog's guards; and the edit (a two-field merge) and delete handlers.
 */
module ViewFurniture {
  import opened Optional
  import opened KotlinText
  import opened Firebase
  import opened Records
  import opened Database

  /** `furniture.copy(id = itemSnap.key ?: "")` */
  function WithKey(f: Furniture, key: Option<string>): Furniture
  {
    f.(id := key.GetOr(""))
  }

  /** The id becomes the key, or "" for a null key; every other field is kept. */
  lemma WithKeySetsId(f: Furniture, key: Option<string>)
    ensures WithKey(f, key).id == (if key.Some? then key.value else "")
    ensures WithKey(f, key).(id := f.id) == f
  {
  }

  /** The decoded items of one category bucket, each with its key as id. */
  function KeyedItems(cs: seq<Child<Furniture>>): seq<Furniture>
  {
    if cs == [] then []
    else
      KeyedItems(cs[..|cs| - 1])
      + (match cs[|cs| - 1].value case Some(f) => [WithKey(f, cs[|cs| - 1].key)] case None => [])
  }

  /** The list the listener produces: every bucket's keyed items, bucket after bucket. */
  function Listed(snap: Snapshot<Furniture>): seq<Furniture>
  {
    if snap == [] then [] else Listed(snap[..|snap| - 1]) + KeyedItems(snap[|snap| - 1].children)
  }

  /** The nested loops of `onDataChange` that fill `tempList`. */
  method Collect(snap: Snapshot<Furniture>) returns (tempList: seq<Furniture>)
    ensures tempList == Listed(snap)
  {
    tempList := [];
    var i := 0;
    while i < |snap|
      invariant 0 <= i <= |snap|
      invariant tempList == Listed(snap[..i])
    {
      assert snap[..i + 1][..i] == snap[..i];
      var children := snap[i].children;
      var j := 0;
      while j < |children|
        invariant 0 <= j <= |children|
        invariant tempList == Listed(snap[..i]) + KeyedItems(children[..j])
      {
        assert children[..j + 1][..j] == children[..j];
        var furniture := children[j].value;
        if furniture.Some? {
          tempList := tempList + [WithKey(furniture.value, children[j].key)];
        }
        j := j + 1;
      }
      assert children[..j] == children;
      i := i + 1;
    }
    assert snap[..i] == snap;
  }

  lemma {:induction false} KeyedMembership(cs: seq<Child<Furniture>>, f: Furniture)
    ensures f in KeyedItems(cs) <==>
      exists j :: 0 <= j < |cs| && cs[j].value.Some? && f == WithKey(cs[j].value.value, cs[j].key)
  {
    if cs != [] {
      var n := |cs| - 1;
      KeyedMembership(cs[..n], f);
      if f in KeyedItems(cs[..n]) {
        var j :| 0 <= j < n && cs[..n][j].value.Some? && f == WithKey(cs[..n][j].value.value, cs[..n][j].key);
        assert cs[j] == cs[..n][j];
      }
      if exists j :: 0 <= j < |cs| && cs[j].value.Some? && f == WithKey(cs[j].value.value, cs[j].key) {
        var j :| 0 <= j < |cs| && cs[j].value.Some? && f == WithKey(cs[j].value.value, cs[j].key);
        if j < n { assert cs[..n][j] == cs[j]; }
      }
    }
  }

  /** `f` is the record at child `j` of bucket `i`, decoded and given that child's key as id. */
  ghost predicate KeyedAt(snap: Snapshot<Furniture>, i: int, j: int, f: Furniture)
  {
    && 0 <= i < |snap| && 0 <= j < |snap[i].children| && snap[i].children[j].value.Some?
    && f == WithKey(snap[i].children[j].value.value, snap[i].children[j].key)
  }

  lemma ListedLast(snap: Snapshot<Furniture>)
    requires snap != []
    ensures Listed(snap) == Listed(snap[..|snap| - 1]) + KeyedItems(snap[|snap| - 1].children)
  {
  }

  /**
   * An item is listed exactly when it is a decoded record of some bucket with
   * its id replaced by its key (or "" for a keyless node), all other fields as stored.
   */
  lemma {:induction false} ListedMembership(snap: Snapshot<Furniture>, f: Furniture)
    ensures f in Listed(snap) <==> exists i, j :: KeyedAt(snap, i, j, f)
  {
    if snap != [] {
      var n := |snap| - 1;
      var front := snap[..n];
      ListedMembership(front, f);
      KeyedMembership(snap[n].children, f);
      ListedLast(snap);
      if f in Listed(front) {
        var i, j :| KeyedAt(front, i, j, f);
        assert front[i] == snap[i];
        assert KeyedAt(snap, i, j, f);
      } else if f in KeyedItems(snap[n].children) {
        var j :| 0 <= j < |snap[n].children| && snap[n].children[j].value.Some?
          && f == WithKey(snap[n].children[j].value.value, snap[n].children[j].key);
        assert KeyedAt(snap, n, j, f);
      }
      if exists i, j :: KeyedAt(snap, i, j, f) {
        var i, j :| KeyedAt(snap, i, j, f);
        if i < n {
          assert front[i] == snap[i];
          assert KeyedAt(front, i, j, f);
        }
      }
    }
  }

  /** Every record of the collection shows up in the list of any snapshot of it, with its key as id. */
  lemma StoredIsListed(snap: Snapshot<Furniture>, t: Table<Furniture>, p: string, k: string)
    requires SnapshotOf(snap, t) && Cell(t, p, k).Some?
    ensures WithKey(Cell(t, p, k).value, Some(k)) in Listed(snap)
  {
    assert Lists(snap, p, k, Cell(t, p, k).value);
    var i, j :| 0 <= i < |snap| && 0 <= j < |snap[i].children|
      && snap[i].key == Some(p) && snap[i].children[j] == Child(Some(k), Some(Cell(t, p, k).value));
    ListedMembership(snap, WithKey(Cell(t, p, k).value, Some(k)));
    assert KeyedAt(snap, i, j, WithKey(Cell(t, p, k).value, Some(k)));
  }

  /** `EditFurnitureDialog.isSaveEnabled`: neither field trims to nothing. */
  predicate SaveEnabled(price: string, description: string): (r: bool)
    ensures r <==> Trim(price) != [] && Trim(description) != []
  {
    !IsBlank(price) && !IsBlank(description)
  }

  /**
   * A click on Save: the price the dialog hands to `onEdit`, or None when
   * nothing is issued (the button is disabled, or the price does not parse).
   */
  function SavedPrice(price: string, description: string, parse: string -> Option<real>): (r: Option<real>)
    ensures r.Some? <==> !IsBlank(price) && !IsBlank(description) && parse(price).Some?
    ensures r.Some? ==> parse(price) == r
  {
    if SaveEnabled(price, description) then parse(price) else None
  }

  class ViewFurnitureScreen {
    const db: Store
    /** `String.toDoubleOrNull` */
    const parse: string -> Option<real>
    /** `Double.toString` */
    const show: real -> string

    var furnitureList: seq<Furniture>
    var loading: bool
    var errorMsg: Option<string>

    constructor(db: Store, parse: string -> Option<real>, show: real -> string)
      ensures this.db == db && this.parse == parse && this.show == show
      ensures furnitureList == [] && loading && errorMsg == None
    {
      this.db := db;
      this.parse := parse;
      this.show := show;
      furnitureList := [];
      loading := true;
      errorMsg := None;
    }

    /** `onDataChange`: the flattened list replaces the old one wholesale and loading ends. */
    method OnDataChange(snap: Snapshot<Furniture>)
      modifies this`furnitureList, this`loading
      ensures furnitureList == Listed(snap) && !loading
    {
      furnitureList := Collect(snap);
      loading := false;
    }

    /** `onCancelled`: the error is recorded, loading ends, the list is kept. */
    method OnCancelled(message: string)
      modifies this`errorMsg, this`loading
      ensures errorMsg == Some(message) && !loading
    {
      errorMsg := Some(message);
      loading := false;
    }

    /** `onEdit`: merge the new price (as text) and description into `furniture/category/id`. */
    method Edit(item: Furniture, newPrice: real, newDescription: string, ok: bool)
      requires db.Valid()
      modifies db`furniture
      ensures db.Valid()
      ensures db.furniture == if ok
        then UpdatePriceAndDescription(old(db.furniture), item.category, item.id, show(newPrice), newDescription)
        else old(db.furniture)
    {
      db.UpdateFurniture(item.category, item.id, show(newPrice), newDescription, ok);
    }

    /** `onDelete`: remove `furniture/category/id`. */
    method Delete(item: Furniture, ok: bool)
      requires db.Valid()
      modifies db`furniture
      ensures db.Valid()
      ensures db.furniture == if ok then RemoveValue(old(db.furniture), item.category, item.id) else old(db.furniture)
      ensures ok ==> Cell(db.furniture, item.category, item.id) == None
      ensures forall p, k :: (p, k) != (item.category, item.id) ==> Cell(db.furniture, p, k) == Cell(old(db.furniture), p, k)
    {
      db.RemoveFurniture(item.category, item.id, ok);
    }

    /**
     * Save in the edit dialog of `item`: an edit is issued, and the dialog
     * closes, only when both fields are non-blank and the price parses.
     */
    method Save(item: Furniture, price: string, description: string, ok: bool) returns (closed: bool)
      requires db.Valid()
      modifies db`furniture
      ensures db.Valid()
      ensures closed <==> SaveEnabled(price, description) && parse(price).Some?
      ensures db.furniture == if closed && ok
        then UpdatePriceAndDescription(old(db.furniture), item.category, item.id, show(parse(price).value), description)
        else old(db.furniture)
    {
      var newPrice := SavedPrice(price, description, parse);
      closed := newPrice.Some?;
      if closed {
        Edit(item, newPrice.value, description, ok);
      }
    }
  }
}
