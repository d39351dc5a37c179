/**
 * The scenarios of `DoublyLinkedList.test.ts`, with the outcomes they expect
 * established from the list's contracts, plus two promises of the doc
 * comments in index.ts that no test exercises: the final `pop()` of
 * `PushAfterReverseScenario` and `EmptyPredicateScenario`.
 *
 * `RemoveFromEmptyScenario`, `AtEmptyScenario` and `ToStringEmptyScenario`
 * make their own lists. Every other scenario starts from a list in a stated
 * state: a new list (`View() == []`), one made by a builder method
 * (`OneToFour`, `UnshiftOneTwo`, `OneToThree`, `MapScenario`), or the state
 * another scenario ensures it ends in.
 */
module ListScenarios {
  import opened Wrappers
  import opened Views
  import opened LinkedList

  lemma ReversedOneToFour()
    ensures Views.Reverse([1, 2, 3, 4]) == [4, 3, 2, 1]
  {
    ReverseOf([1, 2, 3, 4], [4, 3, 2, 1]);
  }

  /** `push(1, 2, 3, 4)` on a new list: length 4, values in argument order. */
  method OneToFour() returns (doubly: DoublyLinkedList<int>)
    ensures fresh(doubly.Repr) && doubly.Valid() && !doubly.isReversed
    ensures doubly.View() == [1, 2, 3, 4] && doubly.length == 4
  {
    doubly := new DoublyLinkedList<int>();
    var n := doubly.Push([1, 2, 3, 4]);
    assert n == 4;
  }

  /**
   * After `reverse()`, `push(0)` goes to the new logical end. The final
   * `pop()` checks the promise of `pop`'s doc comment in index.ts
   * (lines 133-137): it removes and returns that logical last element.
   */
  method PushAfterReverseScenario(doubly: DoublyLinkedList<int>)
    requires doubly.Valid() && doubly.View() == [1, 2, 3, 4]
    modifies doubly.Repr
  {
    var self := doubly.Reverse();
    ReversedOneToFour();
    var n := doubly.Push([0]);
    var values := doubly.ToArray();
    assert values == [4, 3, 2, 1, 0];
    var r := doubly.Pop();
    assert r == Option.Some(0) && doubly.length == 4;
  }

  /** `pop()` takes from the logical end both before and after a reversal. */
  method PopScenario(doubly: DoublyLinkedList<int>)
    requires doubly.Valid() && doubly.View() == [1, 2, 3, 4]
    modifies doubly.Repr
  {
    var r := doubly.Pop();
    assert r == Option.Some(4) && doubly.View() == [1, 2, 3] && doubly.length == 3;

    var self := doubly.Reverse();
    ReverseOf([1, 2, 3], [3, 2, 1]);
    r := doubly.Pop();
    assert r == Option.Some(1) && doubly.View() == [3, 2] && doubly.length == 2;
  }

  /** `pop()` and `shift()` on a new list give `None`. */
  method RemoveFromEmptyScenario() {
    var doubly := new DoublyLinkedList<int>();
    var r := doubly.Pop();
    assert r == None;
    var other := new DoublyLinkedList<int>();
    r := other.Shift();
    assert r == None;
  }

  /** `unshift(1, 2)` on a new list keeps argument order. */
  method UnshiftOneTwo() returns (doubly: DoublyLinkedList<int>)
    ensures fresh(doubly.Repr) && doubly.Valid() && doubly.View() == [1, 2]
  {
    doubly := new DoublyLinkedList<int>();
    var n := doubly.Unshift([1, 2]);
    assert n == 2;
  }

  /** After a reversal, `unshift(-1, 0)` puts -1, 0 at the new logical front. */
  method UnshiftAfterReverseScenario(doubly: DoublyLinkedList<int>)
    requires doubly.Valid() && doubly.View() == [1, 2]
    modifies doubly.Repr
    ensures doubly.Valid() && doubly.View() == [-1, 0, 2, 1]
  {
    var self := doubly.Reverse();
    ReverseOf([1, 2], [2, 1]);
    var n := doubly.Unshift([-1, 0]);
    assert doubly.View() == [-1, 0, 2, 1] && n == 4;
  }

  /** Reversing -1, 0, 2, 1 again reads 1, 2, 0, -1. */
  method ReverseAfterUnshiftScenario(doubly: DoublyLinkedList<int>)
    requires doubly.Valid() && doubly.View() == [-1, 0, 2, 1]
    modifies doubly.Repr
  {
    var self := doubly.Reverse();
    ReverseOf([-1, 0, 2, 1], [1, 2, 0, -1]);
    var values := doubly.ToArray();
    assert values == [1, 2, 0, -1];
  }

  /** `shift()` takes from the logical front both before and after a reversal. */
  method ShiftScenario(doubly: DoublyLinkedList<int>)
    requires doubly.Valid() && doubly.View() == [1, 2, 3, 4]
    modifies doubly.Repr
  {
    var r := doubly.Shift();
    assert r == Option.Some(1) && doubly.View() == [2, 3, 4] && doubly.length == 3;

    var self := doubly.Reverse();
    ReverseOf([2, 3, 4], [4, 3, 2]);
    r := doubly.Shift();
    assert r == Option.Some(4) && doubly.View() == [3, 2] && doubly.length == 2;
  }

  /** One `reverse()` reverses `toArray()`, a second restores it; the length stays 4. */
  method ReverseScenario(doubly: DoublyLinkedList<int>)
    requires doubly.Valid() && doubly.View() == [1, 2, 3, 4]
    modifies doubly.Repr
  {
    var self := doubly.Reverse();
    ReversedOneToFour();
    var values := self.ToArray();
    assert values == [4, 3, 2, 1];

    self := doubly.Reverse();
    ReverseOf([4, 3, 2, 1], [1, 2, 3, 4]);
    values := self.ToArray();
    assert values == [1, 2, 3, 4] && doubly.length == 4;
  }

  /** Any index of an empty list gives `None`. */
  method AtEmptyScenario() {
    var doubly := new DoublyLinkedList<int>();
    var r := doubly.At(0);
    assert r == None;
  }

  /** Indices count from the logical front; one past the end gives `None`. */
  method AtScenario(doubly: DoublyLinkedList<int>)
    requires doubly.Valid() && doubly.View() == [1, 2, 3, 4]
  {
    var r := doubly.At(0);
    assert r == Option.Some(1);
    r := doubly.At(1);
    assert r == Option.Some(2);
    r := doubly.At(2);
    assert r == Option.Some(3);
    r := doubly.At(3);
    assert r == Option.Some(4);
    r := doubly.At(4);
    assert r == None;
  }

  /** After a reversal, indices count from the old end; negative ones from the old front. */
  method AtReversedScenario(doubly: DoublyLinkedList<int>)
    requires doubly.Valid() && doubly.View() == [1, 2, 3, 4]
    modifies doubly.Repr
  {
    var self := doubly.Reverse();
    ReversedOneToFour();
    var r := doubly.At(0);
    assert r == Option.Some(4);
    r := doubly.At(1);
    assert r == Option.Some(3);
    r := doubly.At(-1);
    assert r == Option.Some(1);
    r := doubly.At(-2);
    assert r == Option.Some(2);
    r := doubly.At(-5);
    assert r == None;
  }

  function Identity(s: string): string { s }

  /** A new list renders as "null". */
  method ToStringEmptyScenario() {
    var doubly := new DoublyLinkedList<string>();
    var s := doubly.ToString(Identity);
    assert s == "null";
  }

  lemma RenderedOneTwo()
    ensures Render(["1", "2"]) == "null<-1<->2->null"
  {
    RenderSecond("1", "2");
  }

  lemma RenderedOneTwoThree()
    ensures Render(["1", "2", "3"]) == "null<-1<->2<->3->null"
  {
    RenderAppend(["1", "2"], "3");
    RenderedOneTwo();
    assert ["1", "2"] + ["3"] == ["1", "2", "3"];
  }

  lemma ShownOne()
    ensures Shown(["1"], Identity) == ["1"]
  {
    var s: seq<string> := ["1"];
    var shown := Shown(s, Identity);
    assert shown[0] == Identity(s[0]) == "1";
  }

  lemma ShownOneTwo()
    ensures Shown(["1", "2"], Identity) == ["1", "2"]
  {
    var s: seq<string> := ["1", "2"];
    var shown := Shown(s, Identity);
    assert shown[0] == Identity(s[0]) == "1";
    assert shown[1] == Identity(s[1]) == "2";
  }

  lemma ShownOneTwoThree()
    ensures Shown(["1", "2", "3"], Identity) == ["1", "2", "3"]
  {
    var s: seq<string> := ["1", "2", "3"];
    var shown := Shown(s, Identity);
    assert shown[0] == Identity(s[0]) == "1";
    assert shown[1] == Identity(s[1]) == "2";
    assert shown[2] == Identity(s[2]) == "3";
  }

  /** Pushing "1" onto an empty list renders "null<-1". */
  method ToStringOneScenario(doubly: DoublyLinkedList<string>)
    requires doubly.Valid() && doubly.View() == []
    modifies doubly.Repr
    ensures doubly.Valid() && doubly.View() == ["1"]
  {
    var n := doubly.Push(["1"]);
    assert doubly.View() == ["1"];
    var s := doubly.ToString(Identity);
    ShownOne();
    assert s == "null<-1";
  }

  /** Pushing "2" after "1" renders "null<-1<->2->null". */
  method ToStringTwoScenario(doubly: DoublyLinkedList<string>)
    requires doubly.Valid() && doubly.View() == ["1"]
    modifies doubly.Repr
    ensures doubly.Valid() && doubly.View() == ["1", "2"]
  {
    var n := doubly.Push(["2"]);
    assert doubly.View() == ["1", "2"];
    var s := doubly.ToString(Identity);
    ShownOneTwo();
    RenderedOneTwo();
    assert s == "null<-1<->2->null";
  }

  /** Pushing "3" after "1", "2" renders "null<-1<->2<->3->null". */
  method ToStringThreeScenario(doubly: DoublyLinkedList<string>)
    requires doubly.Valid() && doubly.View() == ["1", "2"]
    modifies doubly.Repr
    ensures doubly.Valid() && doubly.View() == ["1", "2", "3"]
  {
    var n := doubly.Push(["3"]);
    assert doubly.View() == ["1", "2", "3"];
    var s := doubly.ToString(Identity);
    ShownOneTwoThree();
    RenderedOneTwoThree();
    assert s == "null<-1<->2<->3->null";
  }

  /** `length` counts every pushed value: 1 after one push, 5 after four more. */
  method LengthScenario(doubly: DoublyLinkedList<int>)
    requires doubly.Valid() && doubly.View() == []
    modifies doubly.Repr
  {
    assert doubly.length == 0;
    var n := doubly.Push([1]);
    assert doubly.length == 1;
    n := doubly.Push([2, 3, 4, 5]);
    assert doubly.length == 5;
  }

  function Double(v: int, i: nat): int { v * 2 }

  /** `push(1, 2, 3)` on a new list, the source of the `map` scenarios. */
  method OneToThree() returns (list: DoublyLinkedList<int>)
    ensures fresh(list.Repr) && list.Valid() && list.View() == [1, 2, 3]
  {
    list := new DoublyLinkedList<int>();
    var n := list.Push([1, 2, 3]);
  }

  /** `map(double)` over 1, 2, 3 gives a new list of 2, 4, 6. */
  method MapScenario(list: DoublyLinkedList<int>) returns (doubled: DoublyLinkedList<int>)
    requires list.Valid() && list.View() == [1, 2, 3]
    ensures fresh(doubled.Repr) && doubled.Valid() && doubled.View() == [2, 4, 6]
  {
    doubled := list.Map(Double);
  }

  /** Reversing the mapped list leaves the source as it was. */
  method MapReverseScenario(list: DoublyLinkedList<int>, doubled: DoublyLinkedList<int>)
    requires list.Valid() && list.View() == [1, 2, 3]
    requires doubled.Valid() && doubled.View() == [2, 4, 6]
    requires list.Repr !! doubled.Repr
    modifies doubled.Repr
  {
    var self := doubled.Reverse();
    ReverseOf([2, 4, 6], [6, 4, 2]);
    var values := list.ToArray();
    assert values == [1, 2, 3];
    values := doubled.ToArray();
    assert values == [6, 4, 2];
  }

  /**
   * On an empty list `some` finds nothing and `every` holds, whatever the
   * predicate: the promises of their doc comments in index.ts (lines 328-333
   * and 350-355), which no test exercises.
   */
  method EmptyPredicateScenario(empty: DoublyLinkedList<int>, p: (int, nat) -> bool)
    requires empty.Valid() && empty.View() == []
  {
    var any := empty.Some(p);
    assert !any;
    var all := empty.Every(p);
    assert all;
  }
}
