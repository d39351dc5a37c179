/**
 * Round trips a caller can rely on, stated for every list and every value
 * and proved through the list's own methods.
 */
module ListLaws {
  import opened Wrappers
  import opened Views
  import opened LinkedList

  /** `push(x)` followed by `pop()` gives back `x` and the list it started from. */
  method PushThenPop<T>(list: DoublyLinkedList<T>, x: T) returns (r: Option<T>)
    requires list.Valid()
    modifies list.Repr
    ensures list.Valid() && r == Option.Some(x)
    ensures list.View() == old(list.View()) && list.length == old(list.length)
    ensures list.isReversed == old(list.isReversed)
  {
    ghost var before := list.View();
    var _ := list.Push([x]);
    assert list.View() == before + [x];
    r := list.Pop();
    assert (before + [x])[..|before|] == before;
  }

  /** `unshift(x)` followed by `shift()` gives back `x` and the list it started from. */
  method UnshiftThenShift<T>(list: DoublyLinkedList<T>, x: T) returns (r: Option<T>)
    requires list.Valid()
    modifies list.Repr
    ensures list.Valid() && r == Option.Some(x)
    ensures list.View() == old(list.View()) && list.length == old(list.length)
    ensures list.isReversed == old(list.isReversed)
  {
    ghost var before := list.View();
    var _ := list.Unshift([x]);
    assert list.View() == [x] + before;
    r := list.Shift();
    assert ([x] + before)[1..] == before;
  }

  /** Two calls of `reverse()` restore the original `toArray()` and flag. */
  method ReverseTwice<T>(list: DoublyLinkedList<T>) returns (values: seq<T>)
    requires list.Valid()
    modifies list`isReversed
    ensures list.Valid() && list.isReversed == old(list.isReversed)
    ensures values == old(list.View()) && |values| == old(list.length)
  {
    ghost var before := list.View();
    var once := list.Reverse();
    var twice := list.Reverse();
    ReverseInvolutive(before);
    values := list.ToArray();
  }

  /** `push(x)` on a reversed list puts `x` at the logical end without relinking the others. */
  method PushWhileReversed<T>(list: DoublyLinkedList<T>, x: T) returns (values: seq<T>)
    requires list.Valid()
    modifies list.Repr, list`isReversed
    ensures list.Valid()
    ensures values == Views.Reverse(old(list.View())) + [x]
  {
    var self := list.Reverse();
    var _ := list.Push([x]);
    values := list.ToArray();
  }

  /** Moving the last value of `rest` onto the popped values keeps their sum `all`. */
  lemma PopStep<T>(all: seq<T>, rest: seq<T>, values: seq<T>)
    requires rest != [] && all == rest + Views.Reverse(values)
    ensures all == rest[..|rest| - 1] + Views.Reverse(values + [rest[|rest| - 1]])
  {
    var x := rest[|rest| - 1];
    ReverseSnoc(values, x);
    assert rest == rest[..|rest| - 1] + [x];
  }

  /** Popping until the list is empty yields its values last-in first-out. */
  method DrainByPop<T>(list: DoublyLinkedList<T>) returns (values: seq<T>)
    requires list.Valid()
    modifies list.Repr
    ensures list.Valid() && list.View() == [] && list.length == 0
    ensures values == Views.Reverse(old(list.View()))
  {
    ghost var all := list.View();
    values := [];
    while list.length > 0
      invariant list.Valid() && list.Repr <= old(list.Repr)
      invariant all == list.View() + Views.Reverse(values)
      decreases list.length
    {
      ghost var rest := list.View();
      PopStep(all, rest, values);
      var r := list.Pop();
      values := values + [r.value];
    }
    assert list.View() == [];
    assert all == Views.Reverse(values);
    ReverseInvolutive(values);
  }
}
