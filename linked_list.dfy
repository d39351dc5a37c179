/**
 * A doubly linked list of heap nodes with O(1) lazy reversal.
 *
 * The nodes are chained head to tail through `next` and tail to head through
 * `previous`; that physical order never changes when the list is reversed.
 * The flag `isReversed` only chooses which end is logical index 0 and which
 * link counts as "logical next". Every public operation is specified against
 * the logical view, `View()`.
 */
module LinkedList {
  import opened Wrappers
  import opened Views

  class Node<T> {
    var data: T
    var previous: Node?<T>
    var next: Node?<T>

    constructor (data: T)
      ensures this.data == data && previous == null && next == null
    {
      this.data := data;
      previous := null;
      next := null;
    }
  }

  /**
   * `nodes` form one chain holding `contents`: no node occurs twice, each
   * node's `next` is its successor and the successor's `previous` is the
   * node, and the two ends link to nothing.
   */
  ghost predicate Chain<T>(nodes: seq<Node<T>>, contents: seq<T>)
    reads nodes
  {
    && |nodes| == |contents|
    && (forall i :: 0 <= i < |nodes| ==> nodes[i].data == contents[i])
    && (forall i, j :: 0 <= i < j < |nodes| ==> nodes[i] != nodes[j])
    && (forall i, j :: 0 <= i < j < |nodes| && j == i + 1 ==>
          nodes[i].next == nodes[j] && nodes[j].previous == nodes[i])
    && (|nodes| > 0 ==> nodes[0].previous == null && nodes[|nodes| - 1].next == null)
  }

  class DoublyLinkedList<T> {
    var head: Node?<T>
    var tail: Node?<T>
    var isReversed: bool
    var length: int

    /** The nodes in physical order, head first. */
    ghost var Nodes: seq<Node<T>>
    /** The values in physical order, head first. */
    ghost var Contents: seq<T>
    /** The objects this list is made of. */
    ghost var Repr: set<object>

    ghost predicate Valid()
      reads this, Repr
    {
      && this in Repr
      && (forall i :: 0 <= i < |Nodes| ==> Nodes[i] in Repr)
      && Chain(Nodes, Contents)
      && length == |Nodes|
      && (length == 0 ==> head == null && tail == null)
      && (length > 0 ==> head == Nodes[0] && tail == Nodes[length - 1])
    }

    /** The values in logical order: what `toArray()` returns. */
    ghost function View(): seq<T>
      reads this
    {
      Oriented(Contents, isReversed)
    }

    constructor ()
      ensures Valid() && fresh(Repr)
      ensures View() == [] && length == 0 && !isReversed
    {
      head := null;
      tail := null;
      isReversed := false;
      length := 0;
      Nodes := [];
      Contents := [];
      Repr := {this};
    }

    /** The node `start` reaches after `steps` moves along `next` (or `previous`). */
    ghost function Follow(start: Node?<T>, forward: bool, steps: nat): (r: Node?<T>)
      reads this, Repr
      requires Valid()
      requires start == null || start in Nodes
      ensures r == null || r in Nodes
      decreases steps
    {
      if steps == 0 || start == null then start
      else
        var i :| 0 <= i < |Nodes| && Nodes[i] == start;
        assert start.next == if i + 1 < |Nodes| then Nodes[i + 1] else null;
        assert start.previous == if i > 0 then Nodes[i - 1] else null;
        Follow(if forward then start.next else start.previous, forward, steps - 1)
    }

    lemma {:induction false} FollowNext(i: nat, k: nat)
      requires Valid() && i < length && i + k <= length
      ensures Follow(Nodes[i], true, k) == if i + k < length then Nodes[i + k] else null
      decreases k
    {
      if k > 0 {
        if i + 1 < length {
          FollowNext(i + 1, k - 1);
        }
      }
    }

    lemma {:induction false} FollowPrevious(i: nat, k: nat)
      requires Valid() && i < length && k <= i + 1
      ensures Follow(Nodes[i], false, k) == if k <= i then Nodes[i - k] else null
      decreases k
    {
      if k > 0 {
        if i > 0 {
          FollowPrevious(i - 1, k - 1);
        }
      }
    }

    /**
     * The structural invariant as the source states it: both ends are absent
     * exactly when the list is empty; otherwise the ends have no outer links,
     * `length - 1` steps along `next` lead from head to tail, the same number
     * along `previous` lead back, and one more step runs off the end.
     */
    lemma ChainReachesEnds()
      requires Valid()
      ensures (head == null <==> length == 0) && (tail == null <==> length == 0)
      ensures length > 0 ==>
        && head.previous == null && tail.next == null
        && Follow(head, true, length - 1) == tail
        && Follow(tail, false, length - 1) == head
        && Follow(head, true, length) == null
        && Follow(tail, false, length) == null
    {
      if length > 0 {
        FollowNext(0, length - 1);
        FollowNext(0, length);
        FollowPrevious(length - 1, length - 1);
        FollowPrevious(length - 1, length);
      }
    }

    /** Walking from the head or from the tail reaches the same node. */
    lemma WalksAgree(p: nat)
      requires Valid() && p < length
      ensures Follow(head, true, p) == Nodes[p]
      ensures Follow(tail, false, length - 1 - p) == Nodes[p]
    {
      FollowNext(0, p);
      FollowPrevious(length - 1, length - 1 - p);
    }

    /** Links a new node after the tail. */
    method InsertAtLast(data: T)
      requires Valid()
      modifies Repr
      ensures Valid() && fresh(Repr - old(Repr))
      ensures Contents == old(Contents) + [data]
      ensures tail != null && fresh(tail) && Nodes == old(Nodes) + [tail]
      ensures length == old(length) + 1 && isReversed == old(isReversed)
    {
      var node := new Node(data);
      length := length + 1;

      if tail == null {
        head := node;
        tail := head;
        Nodes := [node];
        Contents := [data];
        Repr := Repr + {node};
        return;
      }

      assert forall i :: 0 <= i < |Nodes| ==> Nodes[i] != node;
      node.previous := tail;
      tail.next := node;
      tail := node;
      Nodes := Nodes + [node];
      Contents := Contents + [data];
      Repr := Repr + {node};
    }

    /** Links a new node before the head. */
    method InsertAtFirst(data: T)
      requires Valid()
      modifies Repr
      ensures Valid() && fresh(Repr - old(Repr))
      ensures Contents == [data] + old(Contents)
      ensures head != null && fresh(head) && Nodes == [head] + old(Nodes)
      ensures length == old(length) + 1 && isReversed == old(isReversed)
    {
      var node := new Node(data);
      length := length + 1;

      if head == null {
        head := node;
        tail := head;
        Nodes := [node];
        Contents := [data];
        Repr := Repr + {node};
        return;
      }

      assert forall i :: 0 <= i < |Nodes| ==> Nodes[i] != node;
      node.next := head;
      head.previous := node;
      head := node;
      Nodes := [node] + Nodes;
      Contents := [data] + Contents;
      Repr := Repr + {node};
    }

    /**
     * Maps a user index (negative counts from the logical end) to a physical
     * position counted from the head.
     */
    function GetActualIndex(index: int): (r: int)
      reads this
      ensures (0 <= r < length) <==> (-length <= index < length)
    {
      var positiveIndex := LogicalIndex(index, length);
      if !isReversed then positiveIndex else length - 1 - positiveIndex
    }

    /** The user index `index`, in range, as a 0-based logical position. */
    static function LogicalIndex(index: int, length: int): (r: int)
      ensures 0 <= index + length && index < length ==> 0 <= r < length
    {
      if index >= 0 then index else length + index
    }

    /** The physical slot GetActualIndex picks holds logical element `index`. */
    lemma ActualIndexMatchesView(index: int)
      requires Valid() && -length <= index < length
      ensures 0 <= LogicalIndex(index, length) < |View()|
      ensures Contents[GetActualIndex(index)] == View()[LogicalIndex(index, length)]
    {
      OrientedAt(Contents, isReversed, LogicalIndex(index, length));
    }

    /** Appends `data`, in argument order, to the logical end; returns the new length. */
    method Push(data: seq<T>) returns (n: nat)
      requires Valid()
      modifies Repr
      ensures Valid() && fresh(Repr - old(Repr))
      ensures View() == old(View()) + data
      ensures length == old(length) + |data| && n == length
      ensures isReversed == old(isReversed)
    {
      ghost var init := View();
      var i := 0;
      while i < |data|
        invariant 0 <= i <= |data|
        invariant Valid() && fresh(Repr - old(Repr))
        invariant View() == init + data[..i]
        invariant length == old(length) + i && isReversed == old(isReversed)
      {
        ghost var before := Contents;
        if isReversed {
          InsertAtFirst(data[i]);
        } else {
          InsertAtLast(data[i]);
        }
        PushStep(before, isReversed, init, data, i);
        i := i + 1;
      }
      assert data[..i] == data;
      n := length;
    }

    /** Unlinks the tail node and returns its value; `None` on an empty list. */
    method RemoveFromLast() returns (r: Option<T>)
      requires Valid()
      modifies Repr
      ensures Valid() && Repr <= old(Repr) && isReversed == old(isReversed)
      ensures old(length) == 0 ==> r == None && Contents == old(Contents) && length == 0
      ensures old(length) > 0 ==>
        && r == Option.Some(old(Contents)[old(length) - 1])
        && Contents == old(Contents)[..old(length) - 1]
        && Nodes == old(Nodes)[..old(length) - 1]
        && length == old(length) - 1
    {
      if tail == null {
        return None;
      }

      var node := tail;

      length := length - 1;
      if length == 0 {
        head, tail := null, null;
      } else {
        assert node.previous == Nodes[length - 1];
        tail := node.previous;
        tail.next := null;
      }
      Nodes := Nodes[..length];
      Contents := Contents[..length];
      Repr := Repr - {node};

      return Option.Some(node.data);
    }

    /** Unlinks the head node and returns its value; `None` on an empty list. */
    method RemoveFromFirst() returns (r: Option<T>)
      requires Valid()
      modifies Repr
      ensures Valid() && Repr <= old(Repr) && isReversed == old(isReversed)
      ensures old(length) == 0 ==> r == None && Contents == old(Contents) && length == 0
      ensures old(length) > 0 ==>
        && r == Option.Some(old(Contents)[0])
        && Contents == old(Contents)[1..]
        && Nodes == old(Nodes)[1..]
        && length == old(length) - 1
    {
      if head == null {
        return None;
      }

      var node := head;

      length := length - 1;
      if length == 0 {
        head, tail := null, null;
      } else {
        assert node.next == Nodes[1];
        head := node.next;
        head.previous := null;
      }
      Nodes := Nodes[1..];
      Contents := Contents[1..];
      Repr := Repr - {node};

      return Option.Some(node.data);
    }

    /** Removes and returns the last logical element; `None` and no change on an empty list. */
    method Pop() returns (r: Option<T>)
      requires Valid()
      modifies Repr
      ensures Valid() && Repr <= old(Repr) && isReversed == old(isReversed)
      ensures old(View()) == [] ==> r == None && View() == [] && length == 0
      ensures old(View()) != [] ==>
        && r == Option.Some(old(View())[|old(View())| - 1])
        && View() == old(View())[..|old(View())| - 1]
        && length == old(length) - 1
    {
      ghost var before := Contents;
      if isReversed {
        r := RemoveFromFirst();
        if before != [] {
          ReverseCons(before[0], before[1..]);
          assert [before[0]] + before[1..] == before;
        }
      } else {
        r := RemoveFromLast();
      }
    }

    /** Prepends `data` so that it becomes the new logical prefix; returns the new length. */
    method Unshift(data: seq<T>) returns (n: nat)
      requires Valid()
      modifies Repr
      ensures Valid() && fresh(Repr - old(Repr))
      ensures View() == data + old(View())
      ensures length == old(length) + |data| && n == length
      ensures isReversed == old(isReversed)
    {
      ghost var rest := View();
      var i := |data| - 1;
      while i != -1
        invariant -1 <= i < |data|
        invariant Valid() && fresh(Repr - old(Repr))
        invariant View() == data[i + 1..] + rest
        invariant length == old(length) + |data| - 1 - i && isReversed == old(isReversed)
        decreases i
      {
        ghost var before := Contents;
        if isReversed {
          InsertAtLast(data[i]);
        } else {
          InsertAtFirst(data[i]);
        }
        UnshiftStep(before, isReversed, data, rest, i);
        i := i - 1;
      }
      n := length;
    }

    /** Removes and returns the first logical element; `None` and no change on an empty list. */
    method Shift() returns (r: Option<T>)
      requires Valid()
      modifies Repr
      ensures Valid() && Repr <= old(Repr) && isReversed == old(isReversed)
      ensures old(View()) == [] ==> r == None && View() == [] && length == 0
      ensures old(View()) != [] ==>
        && r == Option.Some(old(View())[0])
        && View() == old(View())[1..]
        && length == old(length) - 1
    {
      ghost var before := Contents;
      if isReversed {
        r := RemoveFromLast();
        if before != [] {
          var k := |before| - 1;
          ReverseSnoc(before[..k], before[k]);
          assert before[..k] + [before[k]] == before;
        }
      } else {
        r := RemoveFromFirst();
      }
    }

    /**
     * The node at user index `index`, or null when it is out of range. The walk
     * starts from whichever end the midpoint test of `getNodeAt` in index.ts
     * (line 198) picks; both reach
     * the same node.
     */
    method GetNodeAt(index: int) returns (node: Node?<T>)
      requires Valid()
      ensures node == null <==> !(-length <= index < length)
      ensures node != null ==> node == Nodes[GetActualIndex(index)]
    {
      var actualIndex := GetActualIndex(index);
      if actualIndex < 0 || actualIndex >= length {
        return null;
      }

      var midPoint := length / 2;
      var shouldStartFromLast := midPoint < index;
      var startFrom := if shouldStartFromLast then length - 1 else 0;
      var changeCountBy := if shouldStartFromLast then -1 else 1;

      // With length > 0 both ends are non-null, so the null check on the
      // starting node in `getNodeAt` (index.ts, line 204) never fires.
      node := if shouldStartFromLast then tail else head;

      var i := startFrom;
      while i != actualIndex
        invariant 0 <= i < length
        invariant shouldStartFromLast ==> actualIndex <= i
        invariant !shouldStartFromLast ==> i <= actualIndex
        invariant node == Nodes[i]
        decreases if shouldStartFromLast then i - actualIndex else actualIndex - i
      {
        node := if shouldStartFromLast then node.previous else node.next;
        i := i + changeCountBy;
      }
    }

    /** The value at user index `index` (negative counts from the end), or `None`. */
    method At(index: int) returns (r: Option<T>)
      requires Valid()
      ensures -length <= index < length ==>
        r == Option.Some(View()[LogicalIndex(index, length)])
      ensures !(-length <= index < length) ==> r == None
    {
      var node := GetNodeAt(index);
      if node == null {
        return None;
      }
      ActualIndexMatchesView(index);
      return Option.Some(node.data);
    }

    /** The values in logical order, walked from the logical first node. */
    method ToArray() returns (values: seq<T>)
      requires Valid()
      ensures values == View()
      ensures |values| == length
    {
      values := [];
      var node := if isReversed then tail else head;
      ghost var k := 0;

      while node != null
        invariant 0 <= k <= length
        invariant values == View()[..k]
        invariant node == if k < length then Nodes[Physical(k, length, isReversed)] else null
        decreases length - k
      {
        OrientedAt(Contents, isReversed, k);
        values := values + [node.data];
        node := if isReversed then node.previous else node.next;
        k := k + 1;
      }
      assert View()[..k] == View();
    }

    /** The debugging rendering of the logical view; `show` stringifies one value. */
    method ToString(show: T -> string) returns (s: string)
      requires Valid()
      ensures s == Render(Shown(View(), show))
    {
      var values := ToArray();
      s := Render(Shown(values, show));
    }

    /** Flips the direction flag; no node is created, destroyed or relinked. */
    method Reverse() returns (self: DoublyLinkedList<T>)
      requires Valid()
      modifies this`isReversed
      ensures self == this && Valid()
      ensures isReversed == !old(isReversed) && length == old(length)
      ensures View() == Views.Reverse(old(View()))
    {
      isReversed := !isReversed;
      OrientedFlip(Contents, old(isReversed));
      return this;
    }

    /** A fresh iterator over the logical view (the source's `[Symbol.iterator]`). */
    method Iterator() returns (it: ListIterator<T>)
      requires Valid()
      ensures fresh(it) && it.Valid() && it.list == this
      ensures it.isReversed == isReversed && it.index == 0
      ensures it.Remaining() == View()
    {
      it := new ListIterator(this);
    }

    // `map`, `filter`, `find`, `some` and `every` run a `for ... of` loop over
    // the list. Each loop below takes that iterator's walk as it is: start at
    // the logical first node, step along `previous` when reversed and along
    // `next` otherwise, and count the 0-based logical position in `index`.

    /** A new list of `f(v, i)` for each logical element `v` at position `i`. */
    method Map<U>(f: (T, nat) -> U) returns (doubly: DoublyLinkedList<U>)
      requires Valid()
      ensures fresh(doubly.Repr) && doubly.Valid()
      ensures doubly.View() == MapIndexed(View(), f)
      ensures |doubly.View()| == |View()|
      ensures forall i :: 0 <= i < |View()| ==> doubly.View()[i] == f(View()[i], i)
    {
      ghost var view := View();
      doubly := new DoublyLinkedList<U>();
      var node := if isReversed then tail else head;
      var index: nat := 0;

      while node != null
        invariant index <= length
        invariant node == if index < length then Nodes[Physical(index, length, isReversed)] else null
        invariant doubly.Valid() && fresh(doubly.Repr)
        invariant doubly.View() == MapIndexed(view[..index], f)
        decreases length - index
      {
        OrientedAt(Contents, isReversed, index);
        MapIndexedSnoc(view, index, f);
        var value := f(node.data, index);
        node := if isReversed then node.previous else node.next;
        var _ := doubly.Push([value]);
        index := index + 1;
      }
      assert view[..index] == view;
    }

    /** A new list of the logical elements `v` at positions `i` with `p(v, i)`, in order. */
    method Filter(p: (T, nat) -> bool) returns (doubly: DoublyLinkedList<T>)
      requires Valid()
      ensures fresh(doubly.Repr) && doubly.Valid()
      ensures doubly.View() == Filtered(View(), p)
    {
      ghost var view := View();
      doubly := new DoublyLinkedList<T>();
      var node := if isReversed then tail else head;
      var index: nat := 0;

      while node != null
        invariant index <= length
        invariant node == if index < length then Nodes[Physical(index, length, isReversed)] else null
        invariant doubly.Valid() && fresh(doubly.Repr)
        invariant doubly.View() == Filtered(view[..index], p)
        decreases length - index
      {
        OrientedAt(Contents, isReversed, index);
        FilteredSnoc(view, index, p);
        var value := node.data;
        var keep := p(value, index);
        node := if isReversed then node.previous else node.next;
        if keep {
          var _ := doubly.Push([value]);
        }
        index := index + 1;
      }
      assert view[..index] == view;
    }

    /** The first logical element `v`, at position `i`, with `p(v, i)`; `None` if there is none. */
    method Find(p: (T, nat) -> bool) returns (r: Option<T>)
      requires Valid()
      ensures r == None <==> forall i :: 0 <= i < |View()| ==> !p(View()[i], i)
      ensures r != None ==>
        exists i :: && 0 <= i < |View()| && View()[i] == r.value && p(View()[i], i)
                    && forall j :: 0 <= j < i ==> !p(View()[j], j)
    {
      var node := if isReversed then tail else head;
      var index: nat := 0;

      while node != null
        invariant index <= length
        invariant node == if index < length then Nodes[Physical(index, length, isReversed)] else null
        invariant forall j :: 0 <= j < index ==> !p(View()[j], j)
        decreases length - index
      {
        OrientedAt(Contents, isReversed, index);
        var value := node.data;
        assert value == View()[index];
        if p(value, index) {
          return Option.Some(value);
        }
        node := if isReversed then node.previous else node.next;
        index := index + 1;
      }
      return None;
    }

    /** Whether some logical element `v`, at position `i`, has `p(v, i)`. */
    method Some(p: (T, nat) -> bool) returns (r: bool)
      requires Valid()
      ensures r <==> exists i :: 0 <= i < |View()| && p(View()[i], i)
    {
      var node := if isReversed then tail else head;
      var index: nat := 0;

      while node != null
        invariant index <= length
        invariant node == if index < length then Nodes[Physical(index, length, isReversed)] else null
        invariant forall j :: 0 <= j < index ==> !p(View()[j], j)
        decreases length - index
      {
        OrientedAt(Contents, isReversed, index);
        assert node.data == View()[index];
        if p(node.data, index) {
          return true;
        }
        node := if isReversed then node.previous else node.next;
        index := index + 1;
      }
      return false;
    }

    /** Whether every logical element `v`, at position `i`, has `p(v, i)`. */
    method Every(p: (T, nat) -> bool) returns (r: bool)
      requires Valid()
      ensures r <==> forall i :: 0 <= i < |View()| ==> p(View()[i], i)
    {
      var node := if isReversed then tail else head;
      var index: nat := 0;

      while node != null
        invariant index <= length
        invariant node == if index < length then Nodes[Physical(index, length, isReversed)] else null
        invariant forall j :: 0 <= j < index ==> p(View()[j], j)
        decreases length - index
      {
        OrientedAt(Contents, isReversed, index);
        assert node.data == View()[index];
        if !p(node.data, index) {
          return false;
        }
        node := if isReversed then node.previous else node.next;
        index := index + 1;
      }
      return true;
    }
  }

  /**
   * An iterator over a list. It captures, when created, the logical first node
   * and the direction flag, and then follows `previous` or `next` accordingly.
   */
  class ListIterator<T> {
    ghost const list: DoublyLinkedList<T>
    const isReversed: bool
    var node: Node?<T>
    /** How many values this iterator has produced. */
    ghost var index: nat

    /** The iterator stands at logical position `index` of its captured direction. */
    ghost predicate Valid()
      reads this, list
    {
      && index <= |list.Nodes|
      && node == if index < |list.Nodes| then list.Nodes[Physical(index, |list.Nodes|, isReversed)] else null
    }

    /** The values still to come. */
    ghost function Remaining(): seq<T>
      reads this, list
      requires index <= |list.Contents|
    {
      Oriented(list.Contents, isReversed)[index..]
    }

    constructor (list: DoublyLinkedList<T>)
      requires list.Valid()
      ensures Valid() && this.list == list && isReversed == list.isReversed && index == 0
      ensures Remaining() == list.View()
    {
      this.list := list;
      isReversed := list.isReversed;
      node := if list.isReversed then list.tail else list.head;
      index := 0;
    }

    /** The next value in the captured direction, or `None` once the end is passed. */
    method Next() returns (r: Option<T>)
      requires Valid() && list.Valid()
      modifies this
      ensures Valid()
      ensures old(index) < list.length ==>
        r == Option.Some(Oriented(list.Contents, isReversed)[old(index)]) && index == old(index) + 1
      ensures old(index) == list.length ==> r == None && index == old(index)
    {
      if node == null {
        return None;
      }
      OrientedAt(list.Contents, isReversed, index);
      var value := node.data;
      node := if isReversed then node.previous else node.next;
      index := index + 1;
      return Option.Some(value);
    }
  }
}
