/**
 * The part of the Firebase realtime database the app uses, under the
 * modelling assumptions stated in README.md: a top-level collection is a
 * two-level table `partition key -> record key -> record`; `setValue`
 * overwrites one record, `removeValue` deletes one record, and a node left
 * without children no longer exists. A snapshot delivered to a listener is
 * the ordered list of a collection's child nodes and their child nodes.
 */
module Firebase {
  import opened Optional

  type Table<R> = map<string, map<string, R>>

  /** The record stored at `collection/p/k`, if any. */
  function Cell<R>(t: Table<R>, p: string, k: string): Option<R>
  {
    if p in t && k in t[p] then Some(t[p][k]) else None
  }

  /** The database keeps no node without children, so no partition is empty. */
  ghost predicate NoEmptyPartition<R>(t: Table<R>)
  {
    forall p :: p in t ==> t[p] != map[]
  }

  /** `child(p).child(k).setValue(r)`: `r` replaces the record at p/k, nothing else changes. */
  function SetValue<R>(t: Table<R>, p: string, k: string, r: R): (t': Table<R>)
    ensures Cell(t', p, k) == Some(r)
    ensures forall p', k' :: (p', k') != (p, k) ==> Cell(t', p', k') == Cell(t, p', k')
    ensures NoEmptyPartition(t) ==> NoEmptyPartition(t')
  {
    t[p := (if p in t then t[p] else map[])[k := r]]
  }

  /**
   * `child(p).child(k).removeValue()`: the record at p/k is gone, nothing else
   * changes, and a partition emptied by the removal disappears with it.
   */
  function RemoveValue<R>(t: Table<R>, p: string, k: string): (t': Table<R>)
    ensures Cell(t', p, k) == None
    ensures forall p', k' :: (p', k') != (p, k) ==> Cell(t', p', k') == Cell(t, p', k')
    ensures NoEmptyPartition(t) ==> NoEmptyPartition(t')
  {
    if p in t && k in t[p] then
      var rest := t[p] - {k};
      if rest == map[] then
        assert forall k' :: k' in t[p] && k' != k ==> k' in rest;
        t - {p}
      else
        t[p := rest]
    else
      t
  }

  /** Two tables without empty partitions are equal when they hold the same record in every cell. */
  lemma SameCellsSameTable<R>(t: Table<R>, u: Table<R>)
    requires NoEmptyPartition(t) && NoEmptyPartition(u)
    requires forall p, k :: Cell(t, p, k) == Cell(u, p, k)
    ensures t == u
  {
    forall p | p in t ensures p in u && t[p] == u[p] {
      var k :| k in t[p];
      assert Cell(t, p, k).Some?;
      forall k' ensures (k' in t[p]) == (k' in u[p]) && (k' in t[p] ==> t[p][k'] == u[p][k']) {
        assert Cell(t, p, k') == Cell(u, p, k');
      }
    }
    forall p | p in u ensures p in t {
      var k :| k in u[p];
      assert Cell(u, p, k).Some?;
    }
  }

  /** Removing a record just written to an empty cell restores the table. */
  lemma RemoveUndoesSet<R>(t: Table<R>, p: string, k: string, r: R)
    requires NoEmptyPartition(t) && Cell(t, p, k) == None
    ensures RemoveValue(SetValue(t, p, k, r), p, k) == t
  {
    var u := RemoveValue(SetValue(t, p, k, r), p, k);
    forall p', k' ensures Cell(u, p', k') == Cell(t, p', k') {
    }
    SameCellsSameTable(u, t);
  }

  /** A child node of a snapshot: its key (null for a keyless node) and its record (null when it does not decode). */
  datatype Child<R> = Child(key: Option<string>, value: Option<R>)

  /** A child of the collection's root: a partition key and the record nodes under it, in iteration order. */
  datatype Partition<R> = Partition(key: Option<string>, children: seq<Child<R>>)

  type Snapshot<R> = seq<Partition<R>>

  /** The records of a partition that decode, in iteration order. */
  function Decoded<R>(cs: seq<Child<R>>): seq<R>
  {
    if cs == [] then []
    else Decoded(cs[..|cs| - 1]) + (match cs[|cs| - 1].value case Some(r) => [r] case None => [])
  }

  /** The records of every partition that decode, partition after partition. */
  function AllDecoded<R>(snap: Snapshot<R>): seq<R>
  {
    if snap == [] then [] else AllDecoded(snap[..|snap| - 1]) + Decoded(snap[|snap| - 1].children)
  }

  lemma DecodedLast<R>(cs: seq<Child<R>>)
    requires cs != []
    ensures Decoded(cs) == Decoded(cs[..|cs| - 1]) + (match cs[|cs| - 1].value case Some(r) => [r] case None => [])
  {
  }

  lemma AllDecodedLast<R>(snap: Snapshot<R>)
    requires snap != []
    ensures AllDecoded(snap) == AllDecoded(snap[..|snap| - 1]) + Decoded(snap[|snap| - 1].children)
  {
  }

  /** A record is decoded from a partition exactly when some child of it holds that record. */
  lemma {:induction false} DecodedMembership<R>(cs: seq<Child<R>>, r: R)
    ensures r in Decoded(cs) <==> exists j :: 0 <= j < |cs| && cs[j].value == Some(r)
  {
    if cs != [] {
      var n := |cs| - 1;
      var front := cs[..n];
      DecodedMembership(front, r);
      DecodedLast(cs);
      if r in Decoded(front) {
        var j :| 0 <= j < n && front[j].value == Some(r);
        assert cs[j] == front[j];
      } else if r in Decoded(cs) {
        assert cs[n].value == Some(r);
      }
      if exists j :: 0 <= j < |cs| && cs[j].value == Some(r) {
        var j :| 0 <= j < |cs| && cs[j].value == Some(r);
        if j < n { assert front[j] == cs[j]; }
      }
    }
  }

  /** A partition list splits into two independently flattened halves. */
  lemma {:induction false} AllDecodedAppend<R>(s1: Snapshot<R>, s2: Snapshot<R>)
    ensures AllDecoded(s1 + s2) == AllDecoded(s1) + AllDecoded(s2)
  {
    if s2 == [] {
      assert s1 + s2 == s1;
    } else {
      var n := |s2| - 1;
      var s := s1 + s2;
      assert s[..|s| - 1] == s1 + s2[..n];
      assert s[|s| - 1] == s2[n];
      calc {
        AllDecoded(s);
        { AllDecodedLast(s); }
        AllDecoded(s1 + s2[..n]) + Decoded(s2[n].children);
        { AllDecodedAppend(s1, s2[..n]); }
        AllDecoded(s1) + AllDecoded(s2[..n]) + Decoded(s2[n].children);
        AllDecoded(s1) + (AllDecoded(s2[..n]) + Decoded(s2[n].children));
        { AllDecodedLast(s2); }
        AllDecoded(s1) + AllDecoded(s2);
      }
    }
  }

  /** Child `j` of partition `i` of the snapshot holds the record `r`. */
  ghost predicate HoldsAt<R>(snap: Snapshot<R>, i: int, j: int, r: R)
  {
    0 <= i < |snap| && 0 <= j < |snap[i].children| && snap[i].children[j].value == Some(r)
  }

  /** A record is in the flattened snapshot exactly when some child of some partition holds it. */
  lemma {:induction false} AllDecodedMembership<R>(snap: Snapshot<R>, r: R)
    ensures r in AllDecoded(snap) <==> exists i, j :: HoldsAt(snap, i, j, r)
  {
    if snap != [] {
      var n := |snap| - 1;
      var front := snap[..n];
      AllDecodedMembership(front, r);
      DecodedMembership(snap[n].children, r);
      AllDecodedLast(snap);
      if r in AllDecoded(front) {
        var i, j :| HoldsAt(front, i, j, r);
        assert front[i] == snap[i];
        assert HoldsAt(snap, i, j, r);
      } else if r in Decoded(snap[n].children) {
        var j :| 0 <= j < |snap[n].children| && snap[n].children[j].value == Some(r);
        assert HoldsAt(snap, n, j, r);
      }
      if exists i, j :: HoldsAt(snap, i, j, r) {
        var i, j :| HoldsAt(snap, i, j, r);
        if i < n {
          assert front[i] == snap[i];
          assert HoldsAt(front, i, j, r);
        }
      }
    }
  }

  /** The snapshot lists record `r` at key `k` of partition `p`. */
  ghost predicate Lists<R>(snap: Snapshot<R>, p: string, k: string, r: R)
  {
    exists i, j :: 0 <= i < |snap| && 0 <= j < |snap[i].children|
      && snap[i].key == Some(p) && snap[i].children[j] == Child(Some(k), Some(r))
  }

  /**
   * `snap` is what the database delivers for table `t`: every node has a key,
   * every child holds the record stored at its path, and every stored record is listed.
   */
  ghost predicate SnapshotOf<R>(snap: Snapshot<R>, t: Table<R>)
  {
    && (forall i :: 0 <= i < |snap| ==> snap[i].key.Some?)
    && (forall i, j :: 0 <= i < |snap| && 0 <= j < |snap[i].children| ==>
          snap[i].children[j].key.Some? && snap[i].children[j].value.Some? &&
          Cell(t, snap[i].key.value, snap[i].children[j].key.value) == snap[i].children[j].value)
    && (forall p, k :: Cell(t, p, k).Some? ==> Lists(snap, p, k, Cell(t, p, k).value))
  }

  /** Every record stored in a table is among the records flattened from any snapshot of it. */
  lemma StoredIsDecoded<R>(snap: Snapshot<R>, t: Table<R>, p: string, k: string, r: R)
    requires SnapshotOf(snap, t) && Cell(t, p, k) == Some(r)
    ensures r in AllDecoded(snap)
  {
    assert Lists(snap, p, k, Cell(t, p, k).value);
    var i, j :| 0 <= i < |snap| && 0 <= j < |snap[i].children|
      && snap[i].key == Some(p) && snap[i].children[j] == Child(Some(k), Some(r));
    AllDecodedMembership(snap, r);
    assert HoldsAt(snap, i, j, r);
  }
}
