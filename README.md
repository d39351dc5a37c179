# Doubly linked list with lazy reversal, in Dafny

This project models `DoublyLinkedList<T>` from `index.ts`, together with its `Node<T>` record. The list is a generic container built from heap nodes chained through `previous` and `next`. It has `head`, `tail` and `length` fields and an `isReversed` flag. `reverse()` only flips the flag. The nodes keep their physical head-to-tail order, and every other operation reads the flag to decide which physical end is logical index 0 and which link counts as "logical next".

The model keeps the source's imperative form.

- `LinkedList.Node` and `LinkedList.DoublyLinkedList` are classes with the source's fields.
- The list carries three ghost fields:
  - `Nodes`: the chain, head first.
  - `Contents`: the values in physical order.
  - `Repr`: the list's footprint.
- `Valid()` is the structural invariant:
  - The nodes are distinct and linked both ways.
  - The ends have no outer links.
  - `head` and `tail` are the ends.
  - `length` is the node count.
- `View()` is the logical order, the order `toArray()` returns. It is `Contents` when the flag is clear and its reversal when set.
- Every public operation is a method specified against `View()`:
  - the insert and remove primitives rewire nodes in place;
  - `push`/`unshift` loop over their arguments;
  - `getNodeAt`, `toArray` and the traversals walk the nodes with loops.
- The traversals are `map`, `filter`, `find`, `some` and `every`.
  - `map` and `filter` are specified by pure sequence functions in module `Views`, with lemmas about them: `MapIndexed` for `map` and `Filtered` for `filter`.
  - `find`, `some` and `every` are specified directly in their `ensures` by quantifiers over the positions of `View()`.
- `toString` is specified through the pure function `Render` in module `Views`.

Module `ListLaws` proves round trips for every list, using the list's own methods:
- push then pop;
- unshift then shift;
- reverse twice;
- draining by pop.

Module `ListScenarios` replays the scenarios of `DoublyLinkedList.test.ts`. It also holds two checks of promises made by the doc comments of `index.ts` that no test exercises:
- the final `pop()` step of `PushAfterReverseScenario`, which checks that `pop()` removes the logical last element (index.ts:133-137);
- `EmptyPredicateScenario`: on an empty list `some` is false and `every` is true (index.ts:328-333 and 350-355).

`RemoveFromEmptyScenario`, `AtEmptyScenario` and `ToStringEmptyScenario` make their own new lists. Every other scenario takes a list in a stated state, and each such state is reachable:
- an empty list is what the constructor makes;
- the builders `OneToFour`, `UnshiftOneTwo` and `OneToThree` make 1, 2, 3, 4, then 1, 2, then 1, 2, 3, and `MapScenario` makes the doubled list from 1, 2, 3;
- the remaining states are the end states of the preceding scenario, which the scenario guarantees. `UnshiftAfterReverseScenario` ends in -1, 0, 2, 1, the start of `ReverseAfterUnshiftScenario`. `ToStringOneScenario` ends in "1", the start of `ToStringTwoScenario`, which ends in "1", "2", the start of `ToStringThreeScenario`.

Each scenario establishes, from the contracts alone, the values the test expects.

Two points of `index.ts` that the model keeps exactly:
- **Walk direction in `getNodeAt`.** `getNodeAt` chooses the end to walk from by comparing `Math.floor(length / 2)` with the raw user index, not with the physical position it computes (index.ts:197-198). `GetNodeAt` makes the same comparison, and it is proved to return the right node whichever end the walk starts from.
- **The chain walk.** `ChainReachesEnds` states what the links give: `length - 1` steps along `next` lead from `head` to `tail`, and one step more reaches null. The same holds along `previous` from `tail` back to `head`.

`Views.Render` (index.ts:245-248) and `Views.Join` (index.ts:248) are plain definitions of the `toString` format and of `Array.prototype.join` on strings. They have no contracts of their own; `ToString`'s contract is stated through `Render`, and `JoinSnoc`, `RenderSecond` and `RenderAppend` state their properties. `Views.Shown` applies `show` to every value, standing for `String(v)` on each array element.

## Model

| member | source | states |
|---|---|---|
| LinkedList.Node.constructor | index.ts:8-12 | A new node holds `data` and links to nothing on either side |
| LinkedList.DoublyLinkedList.constructor | index.ts:20-37 | A new list is valid and empty: no head, no tail, length 0, not reversed |
| LinkedList.DoublyLinkedList.ChainReachesEnds | index.ts:15-37 | Structural invariant: `head` is null iff `tail` is null iff `length` is 0; otherwise `head.previous` and `tail.next` are null, `length - 1` steps along `next` lead from head to tail and along `previous` back, and one more step reaches null |
| LinkedList.DoublyLinkedList.Follow | index.ts:206-208 | Following `next` (or `previous`) from a node of the chain, step by step, stays within the chain or reaches null |
| LinkedList.DoublyLinkedList.FollowNext | index.ts:206-208 | `k` steps along `next` from the node at physical position `i` reach position `i + k`, or null past the tail |
| LinkedList.DoublyLinkedList.FollowPrevious | index.ts:206-208 | `k` steps along `previous` from position `i` reach position `i - k`, or null past the head |
| LinkedList.DoublyLinkedList.WalksAgree | index.ts:197-208 | Walking forward from the head and backward from the tail reach the same node for every position, so the nearest-end choice cannot change the result |
| LinkedList.DoublyLinkedList.InsertAtLast | index.ts:44-59 | Links one new node after the tail (or makes it the only node); the physical contents gain the value at the back and the node list gains the new, freshly allocated tail node at the back, length grows by 1, the invariant is kept and the flag is untouched |
| LinkedList.DoublyLinkedList.InsertAtFirst | index.ts:66-81 | Links one new node before the head (or makes it the only node); the physical contents gain the value at the front and the node list gains the new, freshly allocated head node at the front, length grows by 1, the invariant is kept and the flag is untouched |
| LinkedList.DoublyLinkedList.GetActualIndex | index.ts:88-94 | The physical position lies in `[0, length)` exactly when the user index lies in `[-length, length)` |
| LinkedList.DoublyLinkedList.ActualIndexMatchesView | index.ts:88-94 | For an in-range user index, the physical slot chosen holds the logical element at `index` (or `length + index` when negative) |
| LinkedList.DoublyLinkedList.Push | index.ts:101-111 | The new logical view is the old view followed by `data` in argument order, whether or not the list is reversed; returns the new length, which grew by `|data|` |
| LinkedList.DoublyLinkedList.RemoveFromLast | index.ts:117-131 | On an empty list returns `None` and changes nothing; otherwise unlinks the physical tail, returns its value and drops exactly that value and that node: the contents and the node list lose their last entry |
| LinkedList.DoublyLinkedList.Pop | index.ts:138-140 | On an empty list returns `None` and the view stays empty; otherwise returns the last logical element and the view loses exactly it; length drops by 1 |
| LinkedList.DoublyLinkedList.Unshift | index.ts:147-157 | The new logical view is `data`, in argument order, followed by the old view; returns the new length |
| LinkedList.DoublyLinkedList.RemoveFromFirst | index.ts:163-177 | On an empty list returns `None` and changes nothing; otherwise unlinks the physical head, returns its value and drops exactly that value and that node: the contents and the node list lose their first entry |
| LinkedList.DoublyLinkedList.Shift | index.ts:184-186 | On an empty list returns `None`; otherwise returns the first logical element and the view loses exactly it; length drops by 1 |
| LinkedList.DoublyLinkedList.LogicalIndex | index.ts:89 | A user index in `[-length, length)`, counted from the end when negative, becomes a 0-based position in `[0, length)` |
| LinkedList.DoublyLinkedList.GetNodeAt | index.ts:193-211 | Returns null exactly when the user index is outside `[-length, length)`; otherwise the node at the physical position `getActualIndex` computes, whichever end the walk starts from |
| LinkedList.DoublyLinkedList.At | index.ts:218-220 | For `-length <= index < length` the logical element at position `LogicalIndex(index, length)`, that is, counted from the end when `index` is negative; `None` for every other index, including every index of an empty list |
| LinkedList.DoublyLinkedList.ToArray | index.ts:226-236 | Walking from the logical first node along the logical link yields exactly the logical view, with `length` elements |
| LinkedList.DoublyLinkedList.ToString | index.ts:242-249 | The result is `Render` of the logical view: "null" when empty, "null<-v0" for one value, "null<-" + values joined by "<->" + "->null" otherwise |
| LinkedList.DoublyLinkedList.Reverse | index.ts:255-258 | Only the flag changes (no node is created, removed or relinked); length is unchanged; the new view is the reverse of the old one; returns the list itself |
| LinkedList.DoublyLinkedList.Iterator | index.ts:376-379 | A fresh iterator at logical position 0, holding the list's direction flag at creation; the values still to come are the whole logical view |
| LinkedList.ListIterator.constructor | index.ts:377-378 | The iterator captures the start node and the flag, so the values still to come are the whole logical view |
| LinkedList.ListIterator.Next | index.ts:381-392 | While values remain, returns the next logical value of the captured direction and advances one position; afterwards returns `None` and stays put |
| LinkedList.DoublyLinkedList.Map | index.ts:266-281 | A fresh, valid list whose view is `f(v, i)` for each logical element `v` at 0-based logical position `i`, of the same length; the source is not modified |
| LinkedList.DoublyLinkedList.Filter | index.ts:289-304 | A fresh, valid list whose view is `Filtered(View(), p)`: the logical elements whose position passes `p`, in logical order |
| LinkedList.DoublyLinkedList.Find | index.ts:312-326 | `None` exactly when no logical element passes; otherwise some passing element with every earlier position failing, i.e. the first one |
| LinkedList.DoublyLinkedList.Some | index.ts:334-348 | True exactly when some logical element passes `p` at its position (so false on an empty list) |
| LinkedList.DoublyLinkedList.Every | index.ts:356-370 | True exactly when every logical element passes `p` at its position (so true on an empty list) |
| Views.Oriented | index.ts:226-236 | The logical order has as many values as the physical order |
| Views.OrientedSnoc | index.ts:44-59 | Linking after the physical tail adds at the logical end, or at the logical front when reversed |
| Views.OrientedCons | index.ts:66-81 | Linking before the physical head adds at the logical front, or at the logical end when reversed |
| Views.PushStep | index.ts:102-108 | One loop step of `push`: inserting `data[i]` with the primitive the flag selects extends the pushed prefix by `data[i]` |
| Views.UnshiftStep | index.ts:148-154 | One loop step of `unshift`: inserting `data[i]` with the primitive the flag selects extends the unshifted suffix by `data[i]` |
| Views.Physical | index.ts:91-93 | The physical slot of logical position `k` (`k`, or `n - 1 - k` when reversed) lies in `[0, n)` whenever `k` does |
| Views.OrientedAt | index.ts:88-94 | Logical position `k` sits at physical position `k`, or `n - 1 - k` when reversed, and that slot is in range |
| Views.OrientedFlip | index.ts:255-258 | Flipping the flag reverses the logical view, whichever way it pointed before |
| Views.Reverse | index.ts:255-258 | Reversal keeps the number of values |
| Views.ReverseAt | index.ts:255-258 | Position `k` of the reversal is position `n - 1 - k` of the original |
| Views.ReverseOf | index.ts:255-258 | A sequence that mirrors another position by position is its reversal |
| Views.ReverseSnoc | index.ts:255-258 | Reversing `s + [x]` gives `[x]` before the reversal of `s` |
| Views.ReverseCons | index.ts:255-258 | Reversing `[x] + s` gives the reversal of `s` followed by `x` |
| Views.ReverseInvolutive | index.ts:255-258 | Reversing twice restores the original order |
| Views.MapIndexed | index.ts:266-281 | Same length as the input, and position `k` holds `f(s[k], k)` |
| Views.MapIndexedSnoc | index.ts:273-278 | One loop step of `map`: extending the walked prefix by one position appends `f` of that element and its index |
| Views.Filtered | index.ts:289-304 | Filtering never lengthens the sequence |
| Views.FilteredSnoc | index.ts:296-301 | One loop step of `filter`: the walked prefix gains the next element exactly when it passes |
| Views.FilteredSound | index.ts:289-304 | Every kept value is an element at a position that passes `p` |
| Views.FilteredComplete | index.ts:289-304 | Every element at a passing position is kept |
| Views.FilteredAll | index.ts:289-304 | When every position passes, `filter` keeps the whole sequence |
| Views.FilteredNone | index.ts:289-304 | When no position passes, `filter` keeps nothing |
| Views.JoinSnoc | index.ts:248 | Joining one more part appends the separator and that part |
| Views.RenderSecond | index.ts:245-248 | Growing the rendering from one value to two adds "<->x->null" |
| Views.RenderAppend | index.ts:248 | From two values on, the rendering ends in "->null", and adding a value inserts "<->x" just before that ending |
| ListLaws.PushThenPop | index.ts:101-140 | For every list and value, `push(x)` then `pop()` returns `x` and restores the view, length and flag |
| ListLaws.UnshiftThenShift | index.ts:147-186 | For every list and value, `unshift(x)` then `shift()` returns `x` and restores the view, length and flag |
| ListLaws.ReverseTwice | index.ts:255-258 | Two calls of `reverse()` restore the flag, and `toArray()` then gives the original view |
| ListLaws.PushWhileReversed | index.ts:101-111 | After `reverse()`, `push(x)` gives the reversed old view followed by `x` |
| ListLaws.PopStep | index.ts:138-140 | Moving the last value of the remaining view onto the popped values keeps the two together equal to the original view |
| ListLaws.DrainByPop | index.ts:117-140 | Popping until the list is empty leaves it empty and valid, and yields its values last-in first-out (the reverse of the view) |
| ListScenarios.OneToFour | DoublyLinkedList.test.ts:4-10 | `push(1, 2, 3, 4)` on a new list gives length 4 and the values in argument order |
| ListScenarios.UnshiftOneTwo | DoublyLinkedList.test.ts:38-46 | `unshift(1, 2)` on a new list gives the view 1, 2 |
| ListScenarios.OneToThree | DoublyLinkedList.test.ts:138-142 | `push(1, 2, 3)` on a new list gives a fresh valid list with the view 1, 2, 3 |
| ListScenarios.UnshiftAfterReverseScenario | DoublyLinkedList.test.ts:47-54 | From a valid list with the view 1, 2: after `reverse()` and `unshift(-1, 0)` the list is valid with the view -1, 0, 2, 1 (the body also checks that `unshift` returns 4) |
| ListScenarios.ToStringOneScenario | DoublyLinkedList.test.ts:116-117 | From a valid empty list: after `push("1")` the list is valid with the view "1" (the body also checks the rendering "null<-1") |
| ListScenarios.ToStringTwoScenario | DoublyLinkedList.test.ts:119-120 | From a valid list with the view "1": after `push("2")` the list is valid with the view "1", "2" (the body also checks the rendering "null<-1<->2->null") |
| ListScenarios.ToStringThreeScenario | DoublyLinkedList.test.ts:122-123 | From a valid list with the view "1", "2": after `push("3")` the list is valid with the view "1", "2", "3" (the body also checks the rendering "null<-1<->2<->3->null") |
| ListScenarios.MapScenario | DoublyLinkedList.test.ts:137-147 | `map(double)` over 1, 2, 3 gives a fresh valid list of 2, 4, 6 |
| ListScenarios.ReversedOneToFour | DoublyLinkedList.test.ts:81-89 | Reversing 1, 2, 3, 4 gives 4, 3, 2, 1 |
| ListScenarios.ShownOne | DoublyLinkedList.test.ts:116-117 | Showing "1" with the identity gives "1" |
| ListScenarios.ShownOneTwo | DoublyLinkedList.test.ts:119-120 | Showing "1", "2" with the identity gives "1", "2" |
| ListScenarios.ShownOneTwoThree | DoublyLinkedList.test.ts:122-123 | Showing "1", "2", "3" with the identity gives "1", "2", "3" |
| ListScenarios.RenderedOneTwo | DoublyLinkedList.test.ts:119-120 | The rendering of "1", "2" is "null<-1<->2->null" |
| ListScenarios.RenderedOneTwoThree | DoublyLinkedList.test.ts:122-123 | The rendering of "1", "2", "3" is "null<-1<->2<->3->null" |

The other scenario methods of `ListScenarios` have no postconditions, since no later scenario starts from their end state. Their asserts restate the expectations of `DoublyLinkedList.test.ts`, apart from the two doc-comment checks named above:
- `PushAfterReverseScenario`, `PopScenario`, `RemoveFromEmptyScenario`;
- `ReverseAfterUnshiftScenario`, `ShiftScenario`;
- `ReverseScenario`, `AtEmptyScenario`, `AtScenario`, `AtReversedScenario`;
- `ToStringEmptyScenario`;
- `LengthScenario`, `MapReverseScenario`;
- `EmptyPredicateScenario`, from the doc comments of `some` and `every`.

## Left out

- Callback arity sniffing (`cb.length === 3 ? this.toArray() : []`) and `thisArgs` binding are not modelled. Callbacks are pure Dafny functions that receive the value and its 0-based logical position, and never the array.
- Map, Filter, Find, Some, Every: each walks the nodes directly, as the source's iterator does. It starts at the logical first node and follows `previous` when reversed, `next` otherwise. It does not drive a `ListIterator` object through `for ... of`. The iterator itself is modelled separately as `ListIterator`.
- The JavaScript iterator-protocol object shape (`{ value, done }`) is not modelled. `Next` returns `Option`. Iterating while the list is being mutated is not modelled; the source leaves it unspecified.
- The JavaScript `number` type is not modelled. Indices and `length` are unbounded integers, and fractional and NaN indices are not modelled.
- Stringification of arbitrary values inside `toString` is not modelled. The caller supplies `show: T -> string`, and JavaScript's `String(v)` and `Array.prototype.join` conversions are left out.
- GetNodeAt: the source's `if (!node) return null` after choosing the start node (index.ts:204) is absent from the body. With a non-empty valid list both ends are present, so that branch cannot be taken.
- InsertAtLast, InsertAtFirst: the private primitives' `return this` is not modelled. Every caller discards it.
- The `Node` constructor's optional `previous`/`next` parameters are not modelled. The source only ever calls `new Node(data)`.
- `length` is a public writable field in the source. The model expects clients not to assign it; `Valid()` ties it to the node count.
- The bun test runner itself is not modelled. Only the scenarios of `DoublyLinkedList.test.ts` are replayed, in `ListScenarios`.
