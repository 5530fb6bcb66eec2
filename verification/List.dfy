/** Singly linked lists with a pointer to the last node, optionally kept sorted by key. */
module Lists {
  import opened Options

  datatype Entry<T> = Entry(key: int, item: T)

  // ---------- what the operations mean, on sequences ----------

  /** Where `SortedInsert` puts a key: before the first greater one. */
  function Place<T>(entries: seq<Entry<T>>, key: int): (p: nat)
    ensures p <= |entries|
    ensures forall i :: 0 <= i < p ==> entries[i].key <= key
    ensures p < |entries| ==> key < entries[p].key
  {
    if entries == [] || key < entries[0].key then 0 else 1 + Place(entries[1..], key)
  }

  function Inserted<T>(entries: seq<Entry<T>>, e: Entry<T>): seq<Entry<T>> {
    var p := Place(entries, e.key);
    entries[..p] + [e] + entries[p..]
  }

  predicate Sorted<T>(entries: seq<Entry<T>>) {
    forall i, j :: 0 <= i < j < |entries| ==> entries[i].key <= entries[j].key
  }

  /** The entries with one key, in order. */
  function WithKey<T>(entries: seq<Entry<T>>, key: int): seq<Entry<T>> {
    if entries == [] then []
    else WithKey(entries[..|entries| - 1], key) + if Last(entries).key == key then [Last(entries)] else []
  }

  function Last<T>(s: seq<T>): T
    requires s != []
  {
    s[|s| - 1]
  }

  lemma {:induction false} WithKeyOfSum<T>(a: seq<Entry<T>>, b: seq<Entry<T>>, key: int)
    ensures WithKey(a + b, key) == WithKey(a, key) + WithKey(b, key)
  {
    if b == [] {
      assert a + b == a;
    } else {
      assert (a + b)[..|a + b| - 1] == a + b[..|b| - 1];
      WithKeyOfSum(a, b[..|b| - 1], key);
    }
  }

  lemma {:induction false} WithKeyNone<T>(a: seq<Entry<T>>, key: int)
    requires forall i :: 0 <= i < |a| ==> a[i].key != key
    ensures WithKey(a, key) == []
  {
    if a != [] {
      WithKeyNone(a[..|a| - 1], key);
    }
  }

  lemma InsertionSorts<T>(entries: seq<Entry<T>>, e: Entry<T>)
    requires Sorted(entries)
    ensures Sorted(Inserted(entries, e))
  {
    var p := Place(entries, e.key);
    var r := Inserted(entries, e);
    forall i | 0 <= i < |entries|
      ensures i < p ==> r[i] == entries[i]
      ensures i >= p ==> r[i + 1] == entries[i] && e.key <= entries[i].key
    {
    }
    forall i, j | 0 <= i < j < |r|
      ensures r[i].key <= r[j].key
    {
      assert i > p ==> r[i] == entries[i - 1];
      assert j > p ==> r[j] == entries[j - 1];
    }
  }

  lemma InsertionAdds<T>(entries: seq<Entry<T>>, e: Entry<T>)
    ensures multiset(Inserted(entries, e)) == multiset(entries) + multiset{e}
  {
    var p := Place(entries, e.key);
    assert entries == entries[..p] + entries[p..];
  }

  lemma WithKeyOne<T>(e: Entry<T>, key: int)
    ensures WithKey([e], key) == if e.key == key then [e] else []
  {
    assert [e][..0] == [];
  }

  lemma GreaterBehind<T>(entries: seq<Entry<T>>, key: int)
    requires Sorted(entries)
    ensures forall i :: Place(entries, key) <= i < |entries| ==> entries[i].key > key
  {
  }

  lemma InsertionKeepsOrder<T>(entries: seq<Entry<T>>, e: Entry<T>, key: int)
    requires Sorted(entries)
    ensures WithKey(Inserted(entries, e), key) == WithKey(entries, key) + if e.key == key then [e] else []
  {
    hide WithKey, Sorted;
    var p := Place(entries, e.key);
    var front, back := entries[..p], entries[p..];
    assert entries == front + back;
    WithKeyOfSum(front, back, key);
    WithKeyOfSum(front + [e], back, key);
    WithKeyOfSum(front, [e], key);
    WithKeyOne(e, key);
    if e.key == key {
      GreaterBehind(entries, key);
      WithKeyNone(back, key);
    }
  }

  /** Insertion keeps a sorted list sorted, adds exactly the new entry, and puts it behind all entries of its key. */
  lemma InsertionIsStable<T>(entries: seq<Entry<T>>, e: Entry<T>, key: int)
    requires Sorted(entries)
    ensures Sorted(Inserted(entries, e))
    ensures multiset(Inserted(entries, e)) == multiset(entries) + multiset{e}
    ensures WithKey(Inserted(entries, e), key) == WithKey(entries, key) + if e.key == key then [e] else []
  {
    hide WithKey, Inserted, Sorted;
    InsertionSorts(entries, e);
    InsertionAdds(entries, e);
    InsertionKeepsOrder(entries, e, key);
  }

  /** The place of the first entry with a given item, or the length if there is none. */
  function Find<T(==)>(entries: seq<Entry<T>>, item: T): (p: nat)
    ensures p <= |entries|
    ensures forall i :: 0 <= i < p ==> entries[i].item != item
    ensures p < |entries| ==> entries[p].item == item
  {
    if entries == [] || entries[0].item == item then 0 else 1 + Find(entries[1..], item)
  }

  /** `entries` without the first entry for `item`. */
  function Without<T(==)>(entries: seq<Entry<T>>, item: T): seq<Entry<T>> {
    var p := Find(entries, item);
    if p == |entries| then entries else entries[..p] + entries[p + 1..]
  }

  lemma FoundAt<T>(entries: seq<Entry<T>>, item: T, i: nat)
    requires i < |entries| && entries[i].item == item && forall j :: 0 <= j < i ==> entries[j].item != item
    ensures Find(entries, item) == i
  {
  }

  lemma PlacedAt<T>(entries: seq<Entry<T>>, key: int, i: nat)
    requires i <= |entries| && (forall j :: 0 <= j < i ==> entries[j].key <= key)
      && (i < |entries| ==> key < entries[i].key)
    ensures Place(entries, key) == i
  {
  }

  /** Everything but element `i`. */
  function Dropped<T>(s: seq<T>, i: nat): (r: seq<T>)
    requires i < |s|
    ensures |r| == |s| - 1
  {
    s[..i] + s[i + 1..]
  }

  lemma DroppedAt<T>(s: seq<T>, i: nat)
    requires i < |s|
    ensures forall k :: 0 <= k < i ==> Dropped(s, i)[k] == s[k]
    ensures forall k :: i <= k < |s| - 1 ==> Dropped(s, i)[k] == s[k + 1]
  {
  }

  lemma DroppedDiffer<T>(s: seq<T>, i: nat)
    requires i < |s| && forall j, k :: 0 <= j < k < |s| ==> s[j] != s[k]
    ensures forall j, k :: 0 <= j < k < |s| - 1 ==> Dropped(s, i)[j] != Dropped(s, i)[k]
  {
  }

  // ---------- the heap structure ----------

  class ListElement<Item> {
    var next: ListElement?<Item>
    var key: int
    var item: Item

    constructor (anItem: Item, sortKey: int)
      ensures item == anItem && key == sortKey && next == null
    {
      item, key, next := anItem, sortKey, null;
    }
  }

  class List<Item(==)> {
    var first: ListElement?<Item>
    var last: ListElement?<Item>
    ghost var spine: seq<ListElement<Item>>
    ghost var entries: seq<Entry<Item>>

    /** The nodes from `first` on are `spine`, each once, ending in `last`; `entries` is what they hold. */
    ghost predicate Valid()
      reads this, spine
    {
      && |spine| == |entries|
      && (forall i, j :: 0 <= i < j < |spine| ==> spine[i] != spine[j])
      && (forall i :: 0 <= i < |spine| ==> spine[i].key == entries[i].key && spine[i].item == entries[i].item)
      && (forall i :: 0 <= i < |spine| - 1 ==> spine[i].next == spine[i + 1])
      && (if spine == [] then first == null && last == null
          else first == spine[0] && last == Last(spine) && Last(spine).next == null)
    }

    constructor ()
      ensures Valid() && entries == [] && spine == []
    {
      first, last := null, null;
      spine, entries := [], [];
    }

    method IsEmpty() returns (b: bool)
      requires Valid()
      ensures b <==> entries == []
    {
      b := first == null;
    }

    /** Links a new node behind node `i`. */
    method LinkAfter(ptr: ListElement<Item>, element: ListElement<Item>, ghost i: nat)
      requires Valid() && i < |spine| && ptr == spine[i] && element !in spine && element.next == ptr.next
      modifies this`last, this`spine, this`entries, ptr
      ensures Valid()
      ensures spine == old(spine)[..i + 1] + [element] + old(spine)[i + 1..]
      ensures entries == old(entries)[..i + 1] + [Entry(element.key, element.item)] + old(entries)[i + 1..]
    {
      assert i < |spine| - 1 ==> spine[i + 1] == spine[i].next;
      if ptr.next == null {
        last := element;
      }
      ptr.next := element;
      spine := spine[..i + 1] + [element] + spine[i + 1..];
      entries := entries[..i + 1] + [Entry(element.key, element.item)] + entries[i + 1..];
    }

    /** Puts a new node in front. */
    method LinkFront(element: ListElement<Item>)
      requires Valid() && element !in spine && element.next == null
      modifies this, element
      ensures Valid()
      ensures spine == [element] + old(spine)
      ensures entries == [Entry(old(element.key), old(element.item))] + old(entries)
    {
      if first == null {
        last := element;
      } else {
        element.next := first;
      }
      first := element;
      spine := [element] + spine;
      entries := [Entry(element.key, element.item)] + entries;
    }

    method Append(item: Item)
      requires Valid()
      modifies this, spine
      ensures Valid() && entries == old(entries) + [Entry(0, item)]
      ensures forall n :: n in spine ==> n in old(spine) || fresh(n)
    {
      var element := new ListElement<Item>(item, 0);
      if first == null {
        LinkFront(element);
      } else {
        LinkAfter(last, element, |spine| - 1);
      }
    }

    method Prepend(item: Item)
      requires Valid()
      modifies this, spine
      ensures Valid() && entries == [Entry(0, item)] + old(entries)
      ensures forall n :: n in spine ==> n in old(spine) || fresh(n)
    {
      var element := new ListElement<Item>(item, 0);
      LinkFront(element);
    }

    method Head() returns (item: Item)
      requires Valid() && entries != []
      ensures item == entries[0].item
    {
      item := first.item;
    }

    method Has(item: Item) returns (b: bool)
      requires Valid()
      ensures b <==> exists i :: 0 <= i < |entries| && entries[i].item == item
    {
      var ptr := first;
      ghost var i := 0;
      while ptr != null
        invariant i <= |spine| && ptr == (if i < |spine| then spine[i] else null)
        invariant forall j :: 0 <= j < i ==> entries[j].item != item
        decreases |spine| - i
      {
        if item == ptr.item {
          return true;
        }
        ptr := ptr.next;
        i := i + 1;
      }
      b := false;
    }

    /** The last node whose key, like all before it, is not greater than `sortKey`. */
    method FindPlace(sortKey: int) returns (ptr: ListElement<Item>, ghost i: nat)
      requires Valid() && first != null && first.key <= sortKey
      ensures i < |spine| && ptr == spine[i] && Place(entries, sortKey) == i + 1
    {
      ptr := first;
      i := 0;
      while ptr.next != null
        invariant i < |spine| && ptr == spine[i]
        invariant forall j :: 0 <= j <= i ==> entries[j].key <= sortKey
        decreases |spine| - i
      {
        if sortKey < ptr.next.key {
          break;
        }
        ptr := ptr.next;
        i := i + 1;
      }
      PlacedAt(entries, sortKey, i + 1);
    }

    method SortedInsert(item: Item, sortKey: int)
      requires Valid()
      modifies this, spine
      ensures Valid() && entries == Inserted(old(entries), Entry(sortKey, item))
      ensures forall n :: n in spine ==> n in old(spine) || fresh(n)
    {
      hide Place;
      if first == null || sortKey < first.key {
        PlacedAt(entries, sortKey, 0);
        var element := new ListElement<Item>(item, sortKey);
        LinkFront(element);
      } else {
        ghost var i;
        var ptr;
        ptr, i := FindPlace(sortKey);
        var element := new ListElement<Item>(item, sortKey);
        element.next := ptr.next;
        LinkAfter(ptr, element, i);
      }
    }

    method SortedPop() returns (popped: Option<Entry<Item>>)
      requires Valid()
      modifies this
      ensures Valid()
      ensures if old(entries) == [] then popped == None && entries == []
              else popped == Some(old(entries)[0]) && entries == old(entries)[1..]
      ensures forall n :: n in spine ==> n in old(spine)
    {
      if first == null {
        return None;
      }
      popped := Some(Entry(first.key, first.item));
      if first == last {
        first, last := null, null;
      } else {
        first := first.next;
      }
      spine, entries := spine[1..], entries[1..];
    }

    method Remove(item: Item)
      requires Valid()
      modifies this, spine
      ensures Valid() && entries == Without(old(entries), item)
      ensures forall n :: n in spine ==> n in old(spine)
    {
      var ptr, prevPtr: ListElement?<Item> := first, null;
      ghost var i := 0;
      while ptr != null
        invariant i <= |spine| && ptr == (if i < |spine| then spine[i] else null)
        invariant prevPtr == if i == 0 then null else spine[i - 1]
        invariant forall j :: 0 <= j < i ==> entries[j].item != item
        decreases |spine| - i
      {
        if item == ptr.item {
          FoundAt(entries, item, i);
          Unlink(ptr, prevPtr, i);
          return;
        }
        prevPtr, ptr := ptr, ptr.next;
        i := i + 1;
      }
      assert Find(entries, item) == |entries|;
    }

    /** Takes node `i` out, `prevPtr` being the one before it. */
    method Unlink(ptr: ListElement<Item>, prevPtr: ListElement?<Item>, ghost i: nat)
      requires Valid() && i < |spine| && ptr == spine[i] && prevPtr == if i == 0 then null else spine[i - 1]
      modifies this, prevPtr
      ensures Valid()
      ensures entries == Dropped(old(entries), i)
      ensures forall n :: n in spine ==> n in old(spine)
    {
      hide Dropped;
      assert i < |spine| - 1 ==> spine[i + 1] == spine[i].next;
      if prevPtr != null {
        prevPtr.next := ptr.next;
      }
      if first == ptr {
        first := ptr.next;
      }
      if last == ptr {
        last := prevPtr;
      }
      DroppedAt(spine, i);
      DroppedAt(entries, i);
      DroppedDiffer(spine, i);
      assert forall k :: 0 <= k < |spine| - 1 && k + 1 != i && k != i ==> spine[k].next == spine[k + 1];
      spine, entries := Dropped(spine, i), Dropped(entries, i);
    }
  }
}
