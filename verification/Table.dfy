/** A table of items by index; indices freed in the middle are remembered in a sorted list. */
module Tables {
  import opened Options
  import opened Lists

  const SIZE := 20

  // ---------- the list of freed indices ----------

  /** Entries in increasing order, each its own key. */
  predicate Increasing(entries: seq<Entry<int>>) {
    && (forall i :: 0 <= i < |entries| ==> entries[i].key == entries[i].item)
    && (forall i, j :: 0 <= i < j < |entries| ==> entries[i].item < entries[j].item)
  }

  predicate Contains(entries: seq<Entry<int>>, x: int) {
    exists i :: 0 <= i < |entries| && entries[i].item == x
  }

  lemma InsertedContains(entries: seq<Entry<int>>, x: int)
    requires Increasing(entries) && !Contains(entries, x)
    ensures Increasing(Inserted(entries, Entry(x, x)))
    ensures forall y :: Contains(Inserted(entries, Entry(x, x)), y) <==> Contains(entries, y) || y == x
  {
    InsertedShape(entries, x);
    hide Inserted, Place;
    var p, r := Place(entries, x), Inserted(entries, Entry(x, x));
    InsertedIncreases(entries, x, p, r);
    forall y
      ensures Contains(r, y) <==> Contains(entries, y) || y == x
    {
      InsertedHas(entries, x, p, r, y);
    }
  }

  /** `r` is `entries` with `x` at place `p`, between the smaller and the greater ones. */
  ghost predicate InsertedAt(entries: seq<Entry<int>>, x: int, p: nat, r: seq<Entry<int>>) {
    && p <= |entries| && |r| == |entries| + 1 && r[p] == Entry(x, x)
    && (forall i :: 0 <= i < p ==> r[i] == entries[i] && entries[i].item < x)
    && (forall i :: p < i < |r| ==> r[i] == entries[i - 1] && entries[i - 1].item > x)
  }

  lemma InsertedIncreases(entries: seq<Entry<int>>, x: int, p: nat, r: seq<Entry<int>>)
    requires Increasing(entries) && InsertedAt(entries, x, p, r)
    ensures Increasing(r)
  {
  }

  lemma InsertedHas(entries: seq<Entry<int>>, x: int, p: nat, r: seq<Entry<int>>, y: int)
    requires InsertedAt(entries, x, p, r)
    ensures Contains(r, y) <==> Contains(entries, y) || y == x
  {
    if Contains(entries, y) {
      var i :| 0 <= i < |entries| && entries[i].item == y;
      assert r[if i < p then i else i + 1].item == y;
    }
  }

  lemma InsertedShape(entries: seq<Entry<int>>, x: int)
    requires Increasing(entries) && !Contains(entries, x)
    ensures InsertedAt(entries, x, Place(entries, x), Inserted(entries, Entry(x, x)))
  {
  }

  lemma WithoutContains(entries: seq<Entry<int>>, x: int)
    requires Increasing(entries) && Contains(entries, x)
    ensures Increasing(Without(entries, x)) && |Without(entries, x)| == |entries| - 1
    ensures forall y :: Contains(Without(entries, x), y) <==> Contains(entries, y) && y != x
  {
    var p, r := Find(entries, x), Without(entries, x);
    forall i | 0 <= i < |r|
      ensures r[i] == entries[if i < p then i else i + 1]
    {
    }
    forall y
      ensures Contains(r, y) <==> Contains(entries, y) && y != x
    {
      if Contains(entries, y) && y != x {
        var i :| 0 <= i < |entries| && entries[i].item == y;
        assert r[if i < p then i else i - 1].item == y;
      }
    }
  }

  lemma EmptyContains()
    ensures forall x :: !Contains([], x)
  {
  }

  lemma TailContains(entries: seq<Entry<int>>)
    requires Increasing(entries) && entries != []
    ensures Increasing(entries[1..])
    ensures forall y :: Contains(entries[1..], y) <==> Contains(entries, y) && y != entries[0].item
    ensures Contains(entries, entries[0].item) && forall y :: Contains(entries, y) ==> y >= entries[0].item
  {
    forall y
      ensures Contains(entries[1..], y) <==> Contains(entries, y) && y != entries[0].item
    {
      if Contains(entries, y) && y != entries[0].item {
        var i :| 0 <= i < |entries| && entries[i].item == y;
        assert entries[1..][i - 1].item == y;
      }
    }
  }

  class Table<T> {
    const data: array<T>
    var current: int
    const freed: List<int>
    ghost var contents: map<int, T>

    /** Live keys are the indices below `current` that are not freed. */
    ghost predicate Loose()
      reads this, data, freed, freed.spine
    {
      && data.Length == SIZE && 0 <= current <= SIZE
      && freed.Valid() && Increasing(freed.entries)
      && (forall x :: Contains(freed.entries, x) ==> 0 <= x < current)
      && (forall x :: x in contents ==> 0 <= x < current && !Contains(freed.entries, x) && contents[x] == data[x])
      && (forall x :: 0 <= x < current && !Contains(freed.entries, x) ==> x in contents)
    }

    /** And the greatest index in use is live: freed ones are below `current - 1`. */
    ghost predicate Valid()
      reads this, data, freed, freed.spine
    {
      Loose() && (current > 0 ==> !Contains(freed.entries, current - 1))
    }

    constructor (blank: array<T>)
      requires blank.Length == SIZE
      ensures Valid() && contents == map[] && data == blank && fresh(freed)
    {
      data := blank;
      current := 0;
      freed := new List<int>();
      contents := map[];
    }

    method HasKey(i: int) returns (b: bool)
      requires Loose() && i >= 0
      ensures b <==> i in contents
    {
      var has := freed.Has(i);
      b := i < current && !has;
    }

    method Get(i: int) returns (item: Option<T>)
      requires Valid() && i >= 0
      ensures item == if i in contents then Some(contents[i]) else None
    {
      var has := HasKey(i);
      item := if has then Some(data[i]) else None;
    }

    method IsEmpty() returns (b: bool)
      requires Valid()
      ensures b <==> forall x :: x !in contents
    {
      b := current == 0;
      assert !b ==> current - 1 in contents;
    }

    /** Fails only if all slots are live; otherwise takes the least index that was not. */
    method Add(item: T) returns (i: int)
      requires Valid()
      modifies this, data, freed
      ensures Valid()
      ensures forall n :: n in freed.spine ==> n in old(freed.spine)
      ensures i == -1 <==> forall x :: 0 <= x < SIZE ==> x in old(contents)
      ensures if i == -1 then contents == old(contents)
              else 0 <= i < SIZE && i !in old(contents) && contents == old(contents)[i := item]
      ensures i != -1 ==> forall x :: 0 <= x < i ==> x in old(contents)
    {
      hide Contains, Increasing;
      EmptyContains();
      var none := freed.IsEmpty();
      if !none {
        ghost var was := freed.entries;
        TailContains(was);
        var popped := freed.SortedPop();
        i := popped.value.item;
        data[i] := item;
        contents := contents[i := item];
      } else if current < SIZE {
        i := current;
        current := current + 1;
        data[i] := item;
        contents := contents[i := item];
      } else {
        i := -1;
      }
    }

    /** Frees an index; freed indices at the top are given up for good. */
    method Remove(i: int) returns (item: Option<T>)
      requires Valid() && i >= 0
      modifies this, freed, freed.spine
      ensures Valid()
      ensures forall n :: n in freed.spine ==> n in old(freed.spine) || fresh(n)
      ensures item == if i in old(contents) then Some(old(contents)[i]) else None
      ensures contents == old(contents) - {i}
    {
      var has := HasKey(i);
      if !has {
        return None;
      }
      item := Some(data[i]);
      if i == current - 1 {
        contents := contents - {i};
        current := current - 1;
        Shrink();
      } else {
        Free(i);
      }
    }

    /** Frees an index in the middle. */
    method Free(i: int)
      requires Valid() && i in contents && i < current - 1
      modifies this`contents, freed, freed.spine
      ensures Valid() && contents == old(contents) - {i}
      ensures forall n :: n in freed.spine ==> n in old(freed.spine) || fresh(n)
    {
      hide Increasing, Contains, Inserted;
      contents := contents - {i};
      InsertedContains(freed.entries, i);
      freed.SortedInsert(i, i);
    }

    /** The loop of `Remove`, down to the greatest live index. */
    method Shrink()
      requires Loose()
      modifies this`current, freed, freed.spine
      ensures Valid()
      ensures forall n :: n in freed.spine ==> n in old(freed.spine)
    {
      hide Increasing, Contains;
      var j := current - 1;
      while j >= 0
        invariant j == current - 1 && Loose()
        invariant forall n :: n in freed.spine ==> n in old(freed.spine)
        invariant forall k :: 0 <= k < |freed.spine| ==> freed.spine[k] in old(freed.spine)
      {
        var has := HasKey(j);
        if has {
          break;
        }
        DropLast();
        j := j - 1;
      }
    }

    /** Gives up the greatest index, which is a freed one. */
    method DropLast()
      requires Loose() && current > 0 && current - 1 !in contents
      modifies this`current, freed, freed.spine
      ensures Loose() && current == old(current) - 1
      ensures forall n :: n in freed.spine ==> n in old(freed.spine)
    {
      assert Contains(freed.entries, current - 1);
      WithoutContains(freed.entries, current - 1);
      hide Without, Increasing, Contains;
      freed.Remove(current - 1);
      current := current - 1;
    }
  }
}
