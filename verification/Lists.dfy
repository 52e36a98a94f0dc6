// The singly linked list of threads/list.cc, with its first and last pointers, against the sequence of its cells.
module Lists {
  import opened Basics

  datatype Cell<T> = Cell(item: T, key: int)

  // ---------------------------------------------------------------- sorted sequences of cells

  predicate Sorted<T>(s: seq<Cell<T>>) {
    forall i, j :: 0 <= i < j < |s| ==> s[i].key <= s[j].key
  }

  /** Before the first cell with a greater key, so behind all cells with the same key. */
  function InsertSorted<T>(s: seq<Cell<T>>, c: Cell<T>): (r: seq<Cell<T>>)
    ensures |r| == |s| + 1
  {
    if s == [] || c.key < s[0].key then [c] + s else [s[0]] + InsertSorted(s[1..], c)
  }

  /** The place SortedInsert walks to. */
  lemma {:induction false} InsertedAt<T>(s: seq<Cell<T>>, c: Cell<T>, i: nat)
    requires i <= |s| && (forall k :: 0 <= k < i ==> s[k].key <= c.key) && (i < |s| ==> c.key < s[i].key)
    ensures InsertSorted(s, c) == s[..i] + [c] + s[i..]
  {
    if i > 0 {
      var rest := s[1..];
      forall k | 0 <= k < i - 1
        ensures rest[k].key <= c.key
      {
        assert rest[k] == s[k + 1];
      }
      InsertedAt(rest, c, i - 1);
      assert [s[0]] + (rest[..i - 1] + [c] + rest[i - 1..]) == s[..i] + [c] + s[i..];
    } else if s == [] {
      assert s[..0] + [c] + s[0..] == [c];
    }
  }

  function Place<T>(s: seq<Cell<T>>, key: int): (i: nat)
    ensures i <= |s| && (forall k :: 0 <= k < i ==> s[k].key <= key) && (i < |s| ==> key < s[i].key)
  {
    if s == [] || key < s[0].key then 0 else
      var i := 1 + Place(s[1..], key);
      assert forall k :: 1 <= k < i ==> s[k] == s[1..][k - 1];
      i
  }

  /** Insertion keeps a list sorted. */
  lemma InsertKeepsSorted<T>(s: seq<Cell<T>>, c: Cell<T>)
    requires Sorted(s)
    ensures Sorted(InsertSorted(s, c))
  {
    var i := Place(s, c.key);
    InsertedAt(s, c, i);
    var r := InsertSorted(s, c);
    forall a, b | 0 <= a < b < |r|
      ensures r[a].key <= r[b].key
    {
      assert r[a] == if a < i then s[a] else if a == i then c else s[a - 1];
      assert r[b] == if b < i then s[b] else if b == i then c else s[b - 1];
      assert i < |s| && b > i ==> c.key < s[i].key <= s[b - 1].key;
    }
  }

  /** Insertion loses nothing and adds nothing else. */
  lemma InsertKeepsCells<T>(s: seq<Cell<T>>, c: Cell<T>)
    ensures multiset(InsertSorted(s, c)) == multiset(s) + multiset{c}
  {
    var i := Place(s, c.key);
    InsertedAt(s, c, i);
    assert s == s[..i] + s[i..];
  }

  // ---------------------------------------------------------------- the linked list

  class ListElement<T> {
    var next: ListElement?<T>
    const key: int
    const item: T

    function Content(): Cell<T> {
      Cell(item, key)
    }

    constructor (item: T, key: int)
      ensures this.item == item && this.key == key && next == null
    {
      this.item, this.key, this.next := item, key, null;
    }
  }

  /** Consecutive elements are linked, none occurs twice, and the chain ends with null. */
  ghost predicate Linked<T>(nodes: seq<ListElement<T>>)
    reads nodes
  {
    && (forall i, j :: 0 <= i < j < |nodes| ==> nodes[i] != nodes[j])
    && (forall i :: 0 <= i < |nodes| - 1 ==> nodes[i].next == nodes[i + 1])
    && (nodes != [] ==> nodes[|nodes| - 1].next == null)
  }

  ghost function CellsOf<T>(nodes: seq<ListElement<T>>): (s: seq<Cell<T>>)
    ensures |s| == |nodes| && forall i :: 0 <= i < |nodes| ==> s[i] == nodes[i].Content()
  {
    seq(|nodes|, i requires 0 <= i < |nodes| => nodes[i].Content())
  }

  lemma NodesInserted<T>(nodes: seq<ListElement<T>>, element: ListElement<T>, i: nat)
    requires i <= |nodes| && (forall k :: 0 <= k < i ==> nodes[k].key <= element.key)
    requires i < |nodes| ==> element.key < nodes[i].key
    ensures CellsOf(nodes[..i] + [element] + nodes[i..]) == InsertSorted(CellsOf(nodes), element.Content())
  {
    var s := CellsOf(nodes);
    InsertedAt(s, element.Content(), i);
    assert CellsOf(nodes[..i] + [element] + nodes[i..]) == s[..i] + [element.Content()] + s[i..];
  }

  lemma CellsRemoved<T>(nodes: seq<ListElement<T>>, i: nat)
    requires i < |nodes|
    ensures CellsOf(nodes[..i] + nodes[i + 1..]) == CellsOf(nodes)[..i] + CellsOf(nodes)[i + 1..]
  {
  }

  class List<T(==)> {
    var first: ListElement?<T>
    var last: ListElement?<T>
    ghost var nodes: seq<ListElement<T>>
    ghost var Repr: set<ListElement<T>>

    /** What can be reached from first. */
    ghost predicate Chain()
      reads this, Repr
    {
      && (forall i :: 0 <= i < |nodes| ==> nodes[i] in Repr)
      && Linked(nodes) && if nodes == [] then first == null else first == nodes[0]
    }

    /** The last pointer is only used while the list is not empty. */
    ghost predicate Valid()
      reads this, Repr
    {
      Chain() && (nodes != [] ==> last == nodes[|nodes| - 1])
    }

    ghost function Contents(): (s: seq<Cell<T>>)
      reads this
    {
      CellsOf(nodes)
    }

    constructor ()
      ensures Valid() && Contents() == [] && Repr == {}
    {
      first, last, nodes, Repr := null, null, [], {};
    }

    method IsEmpty() returns (b: bool)
      requires Valid()
      ensures b <==> Contents() == []
    {
      b := first == null;
    }

    method Append(item: T)
      requires Valid()
      modifies this, Repr
      ensures Valid() && Contents() == old(Contents()) + [Cell(item, 0)] && fresh(Repr - old(Repr))
    {
      var element := new ListElement(item, 0);
      AddLast(element);
    }

    /** Puts an element behind the last one. */
    method AddLast(element: ListElement<T>)
      requires Valid() && element !in nodes && element.next == null
      modifies this, Repr
      ensures Valid() && nodes == old(nodes) + [element]
      ensures Repr == old(Repr) + {element}
    {
      if first == null {
        first, last := element, element;
      } else {
        last.next := element;
        last := element;
      }
      nodes, Repr := nodes + [element], Repr + {element};
    }

    method Prepend(item: T)
      requires Valid()
      modifies this
      ensures Valid() && Contents() == [Cell(item, 0)] + old(Contents()) && fresh(Repr - old(Repr))
    {
      var element := new ListElement(item, 0);
      AddFirst(element);
    }

    method AddFirst(element: ListElement<T>)
      requires Valid() && element !in nodes && element.next == null
      modifies this, element
      ensures Valid() && nodes == [element] + old(nodes)
      ensures Repr == old(Repr) + {element}
    {
      if first == null {
        first, last := element, element;
      } else {
        element.next := first;
        first := element;
      }
      nodes, Repr := [element] + nodes, Repr + {element};
    }

    /** The new element goes behind every element up to the first one with a greater key. */
    method SortedInsert(item: T, key: int)
      requires Valid()
      modifies this, Repr
      ensures Valid() && Contents() == InsertSorted(old(Contents()), Cell(item, key))
      ensures fresh(Repr - old(Repr))
    {
      var element := new ListElement(item, key);
      ghost var i := LinkIn(element);
      NodesInserted(old(nodes), element, i);
    }

    method LinkIn(element: ListElement<T>) returns (ghost i: nat)
      requires Valid() && element !in nodes && element.next == null
      modifies this, Repr, element
      ensures Valid() && i <= |old(nodes)| && nodes == old(nodes)[..i] + [element] + old(nodes)[i..]
      ensures Repr == old(Repr) + {element}
      ensures forall k :: 0 <= k < i ==> old(nodes)[k].key <= element.key
      ensures i < |old(nodes)| ==> element.key < old(nodes)[i].key
    {
      if first == null {
        AddLast(element);
        i := 0;
      } else if element.key < first.key {
        AddFirst(element);
        i := 0;
      } else {
        var ptr;
        ptr, i := WalkTo(element.key);
        if ptr.next != null {
          InsertAfter(element, ptr, i);
        } else {
          AddLast(element);
        }
        i := i + 1;
      }
    }

    /** The loop of SortedInsert: to the element whose successor, if any, has a greater key. */
    method WalkTo(key: int) returns (ptr: ListElement<T>, ghost i: nat)
      requires Valid() && nodes != [] && nodes[0].key <= key
      ensures i < |nodes| && ptr == nodes[i]
      ensures forall k :: 0 <= k <= i ==> nodes[k].key <= key
      ensures i + 1 < |nodes| ==> key < nodes[i + 1].key
    {
      ptr, i := first, 0;
      while ptr.next != null && ptr.next.key <= key
        invariant i < |nodes| && ptr == nodes[i]
        invariant forall k :: 0 <= k <= i ==> nodes[k].key <= key
        decreases |nodes| - i
      {
        assert i < |nodes| - 1;
        ptr, i := ptr.next, i + 1;
      }
    }

    method InsertAfter(element: ListElement<T>, ptr: ListElement<T>, ghost i: nat)
      requires Valid() && i + 1 < |nodes| && ptr == nodes[i] && element !in nodes
      modifies this, ptr, element
      ensures Valid() && nodes == old(nodes)[..i + 1] + [element] + old(nodes)[i + 1..]
      ensures Repr == old(Repr) + {element}
    {
      element.next := ptr.next;
      ptr.next := element;
      nodes, Repr := nodes[..i + 1] + [element] + nodes[i + 1..], Repr + {element};
    }

    /** Takes the first cell off the list; None when there is none. */
    method SortedRemove() returns (r: Option<Cell<T>>)
      requires Valid()
      modifies this
      ensures Valid() && (r.None? <==> old(Contents()) == [])
      ensures r.None? ==> Contents() == []
      ensures r.Some? ==> r.value == old(Contents())[0] && Contents() == old(Contents())[1..]
      ensures Repr == old(Repr)
    {
      if first == null {
        return None;
      }
      r := Some(Cell(first.item, first.key));
      if first == last {
        assert |nodes| == 1;
        first, last := null, null;
      } else {
        first := first.next;
      }
      nodes := nodes[1..];
    }

    /** Remove: the first item, whatever its key. */
    method Remove() returns (r: Option<T>)
      requires Valid()
      modifies this
      ensures Valid() && (r.None? <==> old(Contents()) == [])
      ensures r.None? ==> Contents() == []
      ensures r.Some? ==> r.value == old(Contents())[0].item && Contents() == old(Contents())[1..]
    {
      var c := SortedRemove();
      r := if c.None? then None else Some(c.value.item);
    }

    /** Removes the first cell that holds the item, at index i; without one, i is the length and nothing changes.  The
        last pointer is not moved: it is right afterwards exactly when the cell was not the tail of a longer list. */
    method RemoveElement(item: T) returns (found: bool, ghost i: nat)
      requires Valid()
      modifies this, Repr
      ensures Chain() && Repr == old(Repr) && i <= |old(Contents())| && (found <==> i < |old(Contents())|)
      ensures forall k :: 0 <= k < i ==> old(Contents())[k].item != item
      ensures !found ==> Valid() && Contents() == old(Contents())
      ensures found ==> old(Contents())[i].item == item && Contents() == old(Contents())[..i] + old(Contents())[i + 1..]
      ensures found ==> (Valid() <==> i + 1 < |old(Contents())| || |old(Contents())| == 1)
    {
      if first != null && first.item == item {
        i := 0;
        UnlinkFirst();
        CellsRemoved(old(nodes), 0);
        return true, 0;
      }
      found, i := RemoveLater(item);
    }

    method RemoveLater(item: T) returns (found: bool, ghost i: nat)
      requires Valid() && (nodes != [] ==> nodes[0].item != item)
      modifies this, Repr
      ensures Chain() && Repr == old(Repr) && i <= |old(Contents())| && (found <==> i < |old(Contents())|)
      ensures forall k :: 0 <= k < i ==> old(Contents())[k].item != item
      ensures !found ==> Valid() && Contents() == old(Contents())
      ensures found ==> old(Contents())[i].item == item && Contents() == old(Contents())[..i] + old(Contents())[i + 1..]
      ensures found ==> |old(Contents())| > 1 && (Valid() <==> i + 1 < |old(Contents())|)
    {
      var previous;
      previous, i := WalkBefore(item);
      if previous == null || previous.next == null {
        i := |nodes|;
        return false, i;
      }
      Unlink(previous, i);
      CellsRemoved(old(nodes), i);
      return true, i;
    }

    method UnlinkFirst()
      requires Valid() && nodes != []
      modifies this
      ensures Valid() && nodes == old(nodes)[1..] && Repr == old(Repr)
    {
      first := first.next;
      nodes := nodes[1..];
    }

    method Unlink(previous: ListElement<T>, ghost i: nat)
      requires Valid() && 0 < i < |nodes| && previous == nodes[i - 1]
      modifies this, previous
      ensures Chain() && nodes == old(nodes)[..i] + old(nodes)[i + 1..] && Repr == old(Repr)
      ensures Valid() <==> i + 1 < |old(nodes)|
    {
      assert nodes[i - 1].next == nodes[i];
      ghost var rest := nodes[i + 1..];
      previous.next := previous.next.next;
      nodes := nodes[..i] + rest;
      forall k | 0 <= k < |nodes| - 1
        ensures nodes[k].next == nodes[k + 1]
      {
        assert k >= i ==> nodes[k] == old(nodes)[k + 1];
      }
    }

    /** The loop of RemoveElement: the element before the one that holds the item, which is the i-th. */
    method WalkBefore(item: T) returns (previous: ListElement?<T>, ghost i: nat)
      requires Valid() && (nodes != [] ==> nodes[0].item != item)
      ensures previous == null <==> nodes == []
      ensures previous != null ==> 0 < i <= |nodes| && previous == nodes[i - 1]
      ensures forall k :: 0 <= k < i <= |nodes| ==> nodes[k].item != item
      ensures previous != null && i < |nodes| ==> nodes[i].item == item
    {
      previous, i := null, 0;
      var current := first;
      while current != null && current.item != item
        invariant i <= |nodes| && current == (if i < |nodes| then nodes[i] else null)
        invariant if i == 0 then previous == null else previous == nodes[i - 1]
        invariant forall k :: 0 <= k < i ==> nodes[k].item != item
        decreases |nodes| - i
      {
        previous, current, i := current, current.next, i + 1;
      }
    }

    method Search(item: T) returns (found: bool)
      requires Valid()
      ensures found <==> exists k :: 0 <= k < |Contents()| && Contents()[k].item == item
    {
      var current := first;
      ghost var i := 0;
      while current != null
        invariant 0 <= i <= |nodes| && current == (if i < |nodes| then nodes[i] else null)
        invariant forall k :: 0 <= k < i ==> Contents()[k].item != item
        decreases |nodes| - i
      {
        if current.item == item {
          assert Contents()[i].item == item;
          return true;
        }
        current, i := current.next, i + 1;
      }
      return false;
    }
  }
}
