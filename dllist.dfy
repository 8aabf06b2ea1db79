/**
 * The heap-allocated doubly linked list of the C tool (dllist.c).
 *
 * A list refers to its first and last item; every item refers to its
 * neighbours and back to its list.  The ghost sequence `Nodes` lists the items
 * in order and `Contents` their data; `Valid` ties the link fields to them.
 */
module DoublyLinkedList {

  class Item<T> {
    var next: Item?<T>
    var prev: Item?<T>
    var list: DList?<T>
    var data: T

    /** `_dlitem_create`: an unlinked item that belongs to `list`. */
    constructor (list: DList<T>, data: T)
      ensures this.list == list && this.data == data
      ensures next == null && prev == null
    {
      this.next := null;
      this.prev := null;
      this.list := list;
      this.data := data;
    }
  }

  /** No item occurs twice. */
  ghost predicate Distinct<T>(nodes: seq<Item<T>>)
  {
    forall i, j {:trigger Apart(nodes, i, j)} :: 0 <= i < j < |nodes| ==> Apart(nodes, i, j)
  }

  /** Positions i and j hold different items. */
  ghost predicate Apart<T>(nodes: seq<Item<T>>, i: nat, j: nat)
    requires i < |nodes| && j < |nodes|
  {
    nodes[i] != nodes[j]
  }

  /** The `prev` and `next` links of the items chain them in the order of `nodes`. */
  ghost predicate Linked<T>(nodes: seq<Item<T>>)
    reads nodes`prev, nodes`next
  {
    (|nodes| > 0 ==> nodes[0].prev == null && nodes[|nodes| - 1].next == null)
    && (forall i {:trigger nodes[i].prev} :: 0 < i < |nodes| ==> nodes[i].prev == nodes[i - 1])
    && (forall i {:trigger nodes[i].next} :: 0 <= i < |nodes| - 1 ==> nodes[i].next == nodes[i + 1])
  }

  /** Two different positions of a distinct sequence hold different items. */
  lemma DistinctAt<T>(nodes: seq<Item<T>>, i: nat, j: nat)
    requires Distinct(nodes) && i < |nodes| && j < |nodes| && i != j
    ensures nodes[i] != nodes[j]
  {
    if i < j {
      assert Apart(nodes, i, j);
    } else {
      assert Apart(nodes, j, i);
    }
  }

  /** Every position other than `j` holds an item other than `nodes[j]`. */
  lemma DistinctFrom<T>(nodes: seq<Item<T>>, j: nat)
    requires Distinct(nodes) && j < |nodes|
    ensures forall i :: 0 <= i < |nodes| && i != j ==> nodes[i] != nodes[j]
  {
    forall i | 0 <= i < |nodes| && i != j
      ensures nodes[i] != nodes[j]
    {
      DistinctAt(nodes, i, j);
    }
  }

  lemma DistinctSplice<T>(nodes: seq<Item<T>>, n: Item<T>, j: nat)
    requires Distinct(nodes) && n !in nodes && j <= |nodes|
    ensures Distinct(nodes[..j] + [n] + nodes[j..])
  {
    var r := nodes[..j] + [n] + nodes[j..];
    forall a, b | 0 <= a < b < |r|
      ensures Apart(r, a, b)
    {
      var a', b' := if a < j then a else a - 1, if b < j then b else b - 1;
      assert r[a] == if a == j then n else nodes[a'];
      assert r[b] == if b == j then n else nodes[b'];
      if a != j && b != j {
        DistinctAt(nodes, a', b');
      }
    }
  }

  /** An item spliced strictly inside a sequence leaves its two ends where they were. */
  lemma SpliceEnds<X>(s: seq<X>, x: X, j: nat)
    requires 0 < j < |s|
    ensures var r := s[..j] + [x] + s[j..]; |r| == |s| + 1 && r[0] == s[0] && r[|r| - 1] == s[|s| - 1]
  {
    var r := s[..j] + [x] + s[j..];
    assert r[|r| - 1] == s[j..][|s| - j - 1];
  }

  lemma DistinctCut<T>(nodes: seq<Item<T>>, k: nat)
    requires Distinct(nodes) && k < |nodes|
    ensures Distinct(nodes[..k] + nodes[k + 1..])
  {
    var r := nodes[..k] + nodes[k + 1..];
    forall a, b | 0 <= a < b < |r|
      ensures Apart(r, a, b)
    {
      var a', b' := if a < k then a else a + 1, if b < k then b else b + 1;
      assert r[a] == nodes[a'] && r[b] == nodes[b'];
      DistinctAt(nodes, a', b');
    }
  }

  lemma DistinctSnoc<T>(nodes: seq<Item<T>>, n: Item<T>)
    requires Distinct(nodes) && n !in nodes
    ensures Distinct(nodes + [n])
  {
    var r := nodes + [n];
    forall a, b | 0 <= a < b < |r|
      ensures Apart(r, a, b)
    {
      if b < |nodes| {
        DistinctAt(nodes, a, b);
      }
    }
  }

  lemma DistinctCons<T>(nodes: seq<Item<T>>, n: Item<T>)
    requires Distinct(nodes) && n !in nodes
    ensures Distinct([n] + nodes)
  {
    var r := [n] + nodes;
    forall a, b | 0 <= a < b < |r|
      ensures Apart(r, a, b)
    {
      if 0 < a {
        DistinctAt(nodes, a - 1, b - 1);
      }
    }
  }

  /** Every item points back to `list` and carries the matching element of `contents`. */
  ghost predicate Owned<T>(list: DList<T>, nodes: seq<Item<T>>, contents: seq<T>)
    requires |contents| == |nodes|
    reads nodes`list, nodes`data
  {
    (forall i {:trigger nodes[i]} :: 0 <= i < |nodes| ==> nodes[i].list == list)
    && (forall i {:trigger nodes[i].data} :: 0 <= i < |nodes| ==> nodes[i].data == contents[i])
  }

  lemma OwnedSplice<T>(list: DList<T>, nodes: seq<Item<T>>, contents: seq<T>, n: Item<T>, j: nat)
    requires |contents| == |nodes| && j <= |nodes|
    requires Owned(list, nodes, contents) && n.list == list
    ensures Owned(list, nodes[..j] + [n] + nodes[j..], contents[..j] + [n.data] + contents[j..])
  {
    var r, c := nodes[..j] + [n] + nodes[j..], contents[..j] + [n.data] + contents[j..];
    forall i | 0 <= i < |r|
      ensures r[i].list == list && r[i].data == c[i]
    {
      if i < j {
        assert r[i] == nodes[i] && c[i] == contents[i];
      } else if i > j {
        assert r[i] == nodes[i - 1] && c[i] == contents[i - 1];
      }
    }
  }

  lemma OwnedCons<T>(list: DList<T>, nodes: seq<Item<T>>, contents: seq<T>, n: Item<T>)
    requires |contents| == |nodes| && Owned(list, nodes, contents) && n.list == list
    ensures Owned(list, [n] + nodes, [n.data] + contents)
  {
    var r, c := [n] + nodes, [n.data] + contents;
    forall i | 0 < i < |r|
      ensures r[i].list == list && r[i].data == c[i]
    {
      assert r[i] == nodes[i - 1] && c[i] == contents[i - 1];
    }
  }

  lemma OwnedSnoc<T>(list: DList<T>, nodes: seq<Item<T>>, contents: seq<T>, n: Item<T>)
    requires |contents| == |nodes| && Owned(list, nodes, contents) && n.list == list
    ensures Owned(list, nodes + [n], contents + [n.data])
  {
    var r, c := nodes + [n], contents + [n.data];
    forall i | 0 <= i < |nodes|
      ensures r[i].list == list && r[i].data == c[i]
    {
      assert r[i] == nodes[i] && c[i] == contents[i];
    }
  }

  lemma OwnedCut<T>(list: DList<T>, nodes: seq<Item<T>>, contents: seq<T>, k: nat)
    requires |contents| == |nodes| && k < |nodes|
    requires Owned(list, nodes, contents)
    ensures Owned(list, nodes[..k] + nodes[k + 1..], contents[..k] + contents[k + 1..])
  {
    var r, c := nodes[..k] + nodes[k + 1..], contents[..k] + contents[k + 1..];
    forall i | 0 <= i < |r|
      ensures r[i].list == list && r[i].data == c[i]
    {
      if i < k {
        assert r[i] == nodes[i] && c[i] == contents[i];
      } else {
        assert r[i] == nodes[i + 1] && c[i] == contents[i + 1];
      }
    }
  }

  /**
   * The items of a chain, relinked so that `n` sits between positions j - 1
   * and j, form the chain with `n` inserted there.
   */
  lemma LinkedSplice<T>(nodes: seq<Item<T>>, n: Item<T>, j: nat)
    requires 0 < j < |nodes|
    requires nodes[0].prev == null && nodes[|nodes| - 1].next == null
    requires forall i {:trigger nodes[i].prev} :: 0 < i < |nodes| && i != j ==> nodes[i].prev == nodes[i - 1]
    requires forall i {:trigger nodes[i].next} :: 0 <= i < |nodes| - 1 && i != j - 1 ==> nodes[i].next == nodes[i + 1]
    requires nodes[j - 1].next == n && n.prev == nodes[j - 1] && n.next == nodes[j] && nodes[j].prev == n
    ensures Linked(nodes[..j] + [n] + nodes[j..])
  {
    var r := nodes[..j] + [n] + nodes[j..];
    forall i | 0 <= i < |r|
      ensures r[i] == if i < j then nodes[i] else if i == j then n else nodes[i - 1]
    {
    }
    forall i | 0 < i < |r|
      ensures r[i].prev == r[i - 1]
    {
      if i < j || i > j + 1 {
        var m := if i < j then i else i - 1;
        assert r[i].prev == nodes[m].prev;
      }
    }
    forall i | 0 <= i < |r| - 1
      ensures r[i].next == r[i + 1]
    {
      if i < j - 1 || i > j {
        var m := if i < j then i else i - 1;
        assert r[i].next == nodes[m].next;
      }
    }
  }

  /** A chain with a new item linked in front of its first item. */
  lemma LinkedCons<T>(nodes: seq<Item<T>>, n: Item<T>)
    requires n.prev == null && n.next == if |nodes| == 0 then null else nodes[0]
    requires |nodes| > 0 ==> nodes[0].prev == n && nodes[|nodes| - 1].next == null
    requires forall i {:trigger nodes[i].prev} :: 0 < i < |nodes| ==> nodes[i].prev == nodes[i - 1]
    requires forall i {:trigger nodes[i].next} :: 0 <= i < |nodes| - 1 ==> nodes[i].next == nodes[i + 1]
    ensures Linked([n] + nodes)
  {
    var r := [n] + nodes;
    forall i | 0 < i < |r|
      ensures r[i] == nodes[i - 1]
    {
    }
  }

  /** A chain with a new item linked behind its last item. */
  lemma LinkedSnoc<T>(nodes: seq<Item<T>>, n: Item<T>)
    requires n.next == null && n.prev == if |nodes| == 0 then null else nodes[|nodes| - 1]
    requires |nodes| > 0 ==> nodes[|nodes| - 1].next == n && nodes[0].prev == null
    requires forall i {:trigger nodes[i].prev} :: 0 < i < |nodes| ==> nodes[i].prev == nodes[i - 1]
    requires forall i {:trigger nodes[i].next} :: 0 <= i < |nodes| - 1 ==> nodes[i].next == nodes[i + 1]
    ensures Linked(nodes + [n])
  {
    var r := nodes + [n];
    forall i | 0 <= i < |nodes|
      ensures r[i] == nodes[i]
    {
    }
  }

  /**
   * The items of a chain, relinked so that position k is skipped, form the
   * chain without that item.
   */
  lemma LinkedCut<T>(nodes: seq<Item<T>>, k: nat)
    requires k < |nodes|
    requires k > 0 ==> nodes[0].prev == null
    requires k < |nodes| - 1 ==> nodes[|nodes| - 1].next == null
    requires forall i {:trigger nodes[i].prev} :: 0 < i < |nodes| && i != k && i != k + 1 ==> nodes[i].prev == nodes[i - 1]
    requires forall i {:trigger nodes[i].next} :: 0 <= i < |nodes| - 1 && i != k - 1 && i != k ==> nodes[i].next == nodes[i + 1]
    requires k + 1 < |nodes| ==> nodes[k + 1].prev == if k == 0 then null else nodes[k - 1]
    requires k > 0 ==> nodes[k - 1].next == if k + 1 == |nodes| then null else nodes[k + 1]
    ensures Linked(nodes[..k] + nodes[k + 1..])
  {
    var r := nodes[..k] + nodes[k + 1..];
    forall i | 0 <= i < |r|
      ensures r[i] == if i < k then nodes[i] else nodes[i + 1]
    {
    }
  }

  class DList<T> {
    var first: Item?<T>
    var last: Item?<T>
    ghost var Nodes: seq<Item<T>>
    ghost var Contents: seq<T>

    ghost predicate Valid()
      reads this, Nodes
    {
      |Contents| == |Nodes|
      && Distinct(Nodes)
      && (if |Nodes| == 0 then first == null && last == null
          else first == Nodes[0] && last == Nodes[|Nodes| - 1])
      && Owned(this, Nodes, Contents)
      && Linked(Nodes)
    }

    /** The place of an item of the list. */
    ghost function Position(item: Item<T>): (k: nat)
      requires Valid() && item in Nodes
      reads this, Nodes
      ensures k < |Nodes| && Nodes[k] == item
      ensures forall j :: 0 <= j < |Nodes| && Nodes[j] == item ==> j == k
    {
      var k :| 0 <= k < |Nodes| && Nodes[k] == item;
      DistinctFrom(Nodes, k);
      k
    }

    /** `dllist_create`: an empty list. */
    constructor ()
      ensures Valid() && Nodes == [] && Contents == []
      ensures first == null && last == null
    {
      first := null;
      last := null;
      Nodes := [];
      Contents := [];
    }

    /** `dllist_append`: the data goes to the end, in a new item that becomes last. */
    method Append(data: T) returns (item: Item<T>)
      requires Valid()
      modifies this, Nodes
      ensures Valid() && fresh(item)
      ensures Nodes == old(Nodes) + [item] && Contents == old(Contents) + [data]
      ensures last == item && (old(Nodes) == [] ==> first == item)
    {
      ghost var nodes := Nodes;
      if |nodes| > 0 {
        DistinctFrom(nodes, |nodes| - 1);
      }
      ghost var contents := Contents;
      item := new Item(this, data);
      Nodes := Nodes + [item];
      Contents := Contents + [data];
      if last == null {
        first := item;
        last := item;
      } else {
        last.next := item;
        item.prev := last;
        last := item;
      }
      DistinctSnoc(nodes, item);
      OwnedSnoc(this, nodes, contents, item);
      LinkedSnoc(nodes, item);
    }

    /** `dllist_prepend`: the data goes to the front, in a new item that becomes first. */
    method Prepend(data: T) returns (item: Item<T>)
      requires Valid()
      modifies this, Nodes
      ensures Valid() && fresh(item)
      ensures Nodes == [item] + old(Nodes) && Contents == [data] + old(Contents)
      ensures first == item && (old(Nodes) == [] ==> last == item)
    {
      ghost var nodes := Nodes;
      if |nodes| > 0 {
        DistinctFrom(nodes, 0);
      }
      ghost var contents := Contents;
      item := new Item(this, data);
      Nodes := [item] + Nodes;
      Contents := [data] + Contents;
      if first == null {
        first := item;
        last := item;
      } else {
        first.prev := item;
        item.next := first;
        first := item;
      }
      DistinctCons(nodes, item);
      OwnedCons(this, nodes, contents, item);
      LinkedCons(nodes, item);
    }

    /**
     * `dllist_insert_before`: the data goes immediately before `item`; at the
     * front of the list this is `dllist_prepend` on the item's list.
     */
    method InsertBefore(item: Item<T>, data: T) returns (n: Item<T>)
      requires Valid() && item in Nodes
      modifies this, Nodes
      ensures Valid() && fresh(n)
      ensures var k := old(Position(item));
        Nodes == old(Nodes[..k]) + [n] + old(Nodes[k..])
        && Contents == old(Contents[..k]) + [data] + old(Contents[k..])
    {
      ghost var k := Position(item);
      if item.prev == null {
        assert k == 0;
        var list := item.list;
        n := list.Prepend(data);
        assert old(Nodes[..k]) == [] && old(Nodes[k..]) == old(Nodes);
        assert old(Contents[..k]) == [] && old(Contents[k..]) == old(Contents);
        return;
      }
      n := LinkBetween(item.prev, item, data, k);
    }

    /**
     * `dllist_insert_after`: the data goes immediately after `item`; at the
     * end of the list this is `dllist_append` on the item's list.
     */
    method InsertAfter(item: Item<T>, data: T) returns (n: Item<T>)
      requires Valid() && item in Nodes
      modifies this, Nodes
      ensures Valid() && fresh(n)
      ensures var k := old(Position(item));
        Nodes == old(Nodes[..k + 1]) + [n] + old(Nodes[k + 1..])
        && Contents == old(Contents[..k + 1]) + [data] + old(Contents[k + 1..])
    {
      ghost var k := Position(item);
      if item.next == null {
        assert k == |Nodes| - 1;
        var list := item.list;
        n := list.Append(data);
        assert old(Nodes[..k + 1]) == old(Nodes) && old(Nodes[k + 1..]) == [];
        assert old(Contents[..k + 1]) == old(Contents) && old(Contents[k + 1..]) == [];
        return;
      }
      n := LinkBetween(item, item.next, data, k + 1);
    }

    /**
     * The common body of `dllist_insert_before` and `dllist_insert_after`
     * once the new item has a neighbour on both sides: it is created for the
     * list and linked between `before` and `after`.
     */
    method LinkBetween(before: Item<T>, after: Item<T>, data: T, ghost j: nat) returns (n: Item<T>)
      requires Valid() && 0 < j < |Nodes| && Nodes[j - 1] == before && Nodes[j] == after
      modifies this, Nodes
      ensures Valid() && fresh(n)
      ensures Nodes == old(Nodes[..j]) + [n] + old(Nodes[j..])
      ensures Contents == old(Contents[..j]) + [data] + old(Contents[j..])
    {
      ghost var nodes := Nodes;
      DistinctFrom(nodes, j - 1);
      DistinctFrom(nodes, j);
      ghost var contents := Contents;
      n := new Item(this, data);
      Nodes := Nodes[..j] + [n] + Nodes[j..];
      Contents := Contents[..j] + [data] + Contents[j..];
      n.prev := before;
      n.next := after;
      before.next := n;
      after.prev := n;
      DistinctSplice(nodes, n, j);
      OwnedSplice(this, nodes, contents, n, j);
      LinkedSplice(nodes, n, j);
      SpliceEnds(nodes, n, j);
    }

    /** `dllist_remove`: unlinks exactly `item`, keeping the order of the others. */
    method Remove(item: Item<T>)
      requires Valid() && item in Nodes
      modifies this, Nodes
      ensures Valid()
      ensures var k := old(Position(item));
        Nodes == old(Nodes[..k]) + old(Nodes[k + 1..])
        && Contents == old(Contents[..k]) + old(Contents[k + 1..])
    {
      ghost var k := Position(item);
      ghost var nodes, contents := Nodes, Contents;
      if k > 0 {
        DistinctFrom(nodes, k - 1);
      }
      if k + 1 < |nodes| {
        DistinctFrom(nodes, k + 1);
      }
      Nodes, Contents := nodes[..k] + nodes[k + 1..], contents[..k] + contents[k + 1..];
      var list := item.list;
      if item.next == null {
        list.last := item.prev;
      } else {
        item.next.prev := item.prev;
      }
      if item.prev == null {
        list.first := item.next;
      } else {
        item.prev.next := item.next;
      }
      DistinctCut(nodes, k);
      OwnedCut(this, nodes, contents, k);
      LinkedCut(nodes, k);
    }

    /** `dllist_clear`: the list is left empty. */
    method Clear()
      requires Valid()
      modifies this
      ensures Valid() && Nodes == [] && Contents == []
    {
      first := null;
      last := null;
      Nodes := [];
      Contents := [];
    }

    /** `dllist_set_data`: replaces the data of one item. */
    method SetData(item: Item<T>, data: T)
      requires Valid() && item in Nodes
      modifies this, item
      ensures Valid() && Nodes == old(Nodes)
      ensures Contents == old(Contents[Position(item) := data])
    {
      ghost var k := Position(item);
      item.data := data;
      Contents := Contents[k := data];
    }

    /** The data of the list, read by walking the `next` links from `first`. */
    method Walk() returns (r: seq<T>)
      requires Valid()
      ensures r == Contents
    {
      r := [];
      var item := first;
      ghost var i := 0;
      while item != null
        invariant 0 <= i <= |Nodes|
        invariant item == if i == |Nodes| then null else Nodes[i]
        invariant r == Contents[..i]
        decreases |Nodes| - i
      {
        r := r + [item.data];
        item := item.next;
        i := i + 1;
      }
      assert Contents[..i] == Contents;
    }

    /** `dllist_copy`: a new list with the same data in the same order. */
    method Copy() returns (result: DList<T>)
      requires Valid()
      ensures Valid() && Nodes == old(Nodes) && Contents == old(Contents)
      ensures fresh(result) && result.Valid() && result.Contents == Contents
      ensures forall n :: n in result.Nodes ==> fresh(n)
    {
      result := new DList();
      var item := first;
      ghost var i := 0;
      while item != null
        invariant 0 <= i <= |Nodes|
        invariant unchanged(this) && unchanged(Nodes)
        invariant item == if i == |Nodes| then null else Nodes[i]
        invariant Valid()
        invariant fresh(result) && result.Valid() && result.Contents == Contents[..i]
        invariant forall n :: n in result.Nodes ==> fresh(n)
        decreases |Nodes| - i
      {
        var _ := result.Append(item.data);
        item := item.next;
        i := i + 1;
      }
      assert Contents[..i] == Contents;
    }
  }

  /** The first part of the list test: five appends of 0 to 4 to a new list. */
  method FillList() returns (list: DList<int>)
    ensures fresh(list) && list.Valid() && list.Contents == [0, 1, 2, 3, 4]
    ensures forall n :: n in list.Nodes ==> fresh(n)
  {
    list := new DList<int>();
    var i := 0;
    while i < 5
      invariant 0 <= i <= 5
      invariant fresh(list) && list.Valid() && list.Contents == seq(i, j => j)
      invariant forall n :: n in list.Nodes ==> fresh(n)
    {
      var _ := list.Append(i);
      i := i + 1;
    }
  }

  /** Prepend 5 and insert 6 before it; the item holding 6 is returned. */
  method EditFront(list: DList<int>) returns (item: Item<int>)
    requires list.Valid() && list.Contents == [0, 1, 2, 3, 4]
    modifies list, list.Nodes
    ensures list.Valid() && list.Contents == [6, 5, 0, 1, 2, 3, 4]
    ensures |list.Nodes| > 0 && list.Nodes[0] == item
    ensures forall n :: n in list.Nodes ==> n in old(list.Nodes) || fresh(n)
  {
    item := list.Prepend(5);
    assert list.Nodes[0] == item;
    assert list.Position(item) == 0;
    item := list.InsertBefore(item, 6);
    assert list.Nodes[0] == item;
  }

  /** Insert 7 after the item holding 6, then append 8; the item holding 8 is returned. */
  method EditMiddle(list: DList<int>, six: Item<int>) returns (item: Item<int>)
    requires list.Valid() && list.Contents == [6, 5, 0, 1, 2, 3, 4]
    requires |list.Nodes| > 0 && list.Nodes[0] == six
    modifies list, list.Nodes
    ensures list.Valid() && list.Contents == [6, 7, 5, 0, 1, 2, 3, 4, 8]
    ensures list.Nodes[8] == item
    ensures forall n :: n in list.Nodes ==> n in old(list.Nodes) || fresh(n)
  {
    assert list.Position(six) == 0;
    var _ := list.InsertAfter(six, 7);
    item := list.Append(8);
  }

  /** Insert 9 after the item holding 8 and remove the item before 8. */
  method EditBack(list: DList<int>, eight: Item<int>)
    requires list.Valid() && list.Contents == [6, 7, 5, 0, 1, 2, 3, 4, 8]
    requires |list.Nodes| == 9 && list.Nodes[8] == eight
    modifies list, list.Nodes
    ensures list.Valid() && list.Contents == [6, 7, 5, 0, 1, 2, 3, 8, 9]
    ensures forall n :: n in list.Nodes ==> n in old(list.Nodes) || fresh(n)
  {
    assert list.Position(eight) == 8;
    var _ := list.InsertAfter(eight, 9);
    ghost var contents := list.Contents;
    assert contents == [6, 7, 5, 0, 1, 2, 3, 4, 8, 9];
    assert list.Nodes[8] == eight;
    var four := eight.prev;
    assert four == list.Nodes[7];
    assert list.Position(four) == 7;
    list.Remove(four);
    assert list.Contents == contents[..7] + contents[8..];
  }

  /**
   * The operation sequence of the list test: five appends, then prepend,
   * insert before, insert after, append, insert after and remove; the list
   * then holds 6, 7, 5, 0, 1, 2, 3, 8, 9 from first to last.
   */
  method TestSequence() returns (contents: seq<int>, firstData: int, lastData: int)
    ensures contents == [6, 7, 5, 0, 1, 2, 3, 8, 9]
    ensures firstData == 6 && lastData == 9
  {
    var list := FillList();
    var six := EditFront(list);
    var eight := EditMiddle(list, six);
    EditBack(list, eight);
    contents := list.Walk();
    firstData := list.first.data;
    lastData := list.last.data;
  }
}
