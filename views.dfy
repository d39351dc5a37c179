/**
 * Pure sequence functions that give the meaning of the linked list:
 * reversal (the lazy `isReversed` flag), the physical position of a
 * logical index, filtering with an index-aware predicate, and the
 * `toString` rendering.
 */
module Views {

  /** The sequence read back to front. */
  function Reverse<T>(s: seq<T>): (r: seq<T>)
    ensures |r| == |s|
  {
    if s == [] then [] else Reverse(s[1..]) + [s[0]]
  }

  lemma {:induction false} ReverseAt<T>(s: seq<T>, k: nat)
    requires k < |s|
    ensures Reverse(s)[k] == s[|s| - 1 - k]
  {
    if k < |s| - 1 {
      ReverseAt(s[1..], k);
    }
  }

  /** A sequence that mirrors `s` position by position is its reversal. */
  lemma ReverseOf<T>(s: seq<T>, r: seq<T>)
    requires |r| == |s| && forall k :: 0 <= k < |s| ==> r[k] == s[|s| - 1 - k]
    ensures Reverse(s) == r
  {
    forall k | 0 <= k < |s|
      ensures Reverse(s)[k] == r[k]
    {
      ReverseAt(s, k);
    }
  }

  /** Adding at the back of a sequence adds at the front of its reversal. */
  lemma {:induction false} ReverseSnoc<T>(s: seq<T>, x: T)
    ensures Reverse(s + [x]) == [x] + Reverse(s)
  {
    if s == [] {
      assert [x][1..] == [];
    } else {
      assert (s + [x])[1..] == s[1..] + [x];
      ReverseSnoc(s[1..], x);
    }
  }

  lemma {:induction false} ReverseCons<T>(x: T, s: seq<T>)
    ensures Reverse([x] + s) == Reverse(s) + [x]
  {
    assert ([x] + s)[1..] == s;
  }

  /** Reversing twice gives back the original order. */
  lemma {:induction false} ReverseInvolutive<T>(s: seq<T>)
    ensures Reverse(Reverse(s)) == s
  {
    if s != [] {
      ReverseInvolutive(s[1..]);
      ReverseSnoc(Reverse(s[1..]), s[0]);
      assert [s[0]] + s[1..] == s;
    }
  }

  /** The physical order read in the direction chosen by the reversal flag. */
  function Oriented<T>(s: seq<T>, reversed: bool): (r: seq<T>)
    ensures |r| == |s|
  {
    if reversed then Reverse(s) else s
  }

  /** Linking a value after the physical tail puts it at the logical end, or the logical front when reversed. */
  lemma OrientedSnoc<T>(s: seq<T>, reversed: bool, x: T)
    ensures Oriented(s + [x], reversed) == if reversed then [x] + Oriented(s, reversed) else Oriented(s, reversed) + [x]
  {
    if reversed {
      ReverseSnoc(s, x);
    }
  }

  /** Linking a value before the physical head puts it at the logical front, or the logical end when reversed. */
  lemma OrientedCons<T>(x: T, s: seq<T>, reversed: bool)
    ensures Oriented([x] + s, reversed) == if reversed then Oriented(s, reversed) + [x] else [x] + Oriented(s, reversed)
  {
    if reversed {
      ReverseCons(x, s);
    }
  }

  /**
   * One step of `push`: linking `data[i]` at the logical end (before the
   * physical head when reversed, after the physical tail otherwise) extends
   * the pushed prefix by that element.
   */
  lemma PushStep<T>(c: seq<T>, reversed: bool, init: seq<T>, data: seq<T>, i: nat)
    requires i < |data| && Oriented(c, reversed) == init + data[..i]
    ensures Oriented(if reversed then [data[i]] + c else c + [data[i]], reversed) == init + data[..i + 1]
  {
    if reversed {
      OrientedCons(data[i], c, reversed);
    } else {
      OrientedSnoc(c, reversed, data[i]);
    }
    assert data[..i + 1] == data[..i] + [data[i]];
  }

  /**
   * One step of `unshift`: linking `data[i]` at the logical front (after the
   * physical tail when reversed, before the physical head otherwise) extends
   * the unshifted suffix by that element.
   */
  lemma UnshiftStep<T>(c: seq<T>, reversed: bool, data: seq<T>, rest: seq<T>, i: nat)
    requires i < |data| && Oriented(c, reversed) == data[i + 1..] + rest
    ensures Oriented(if reversed then c + [data[i]] else [data[i]] + c, reversed) == data[i..] + rest
  {
    if reversed {
      OrientedSnoc(c, reversed, data[i]);
    } else {
      OrientedCons(data[i], c, reversed);
    }
    assert data[i..] == [data[i]] + data[i + 1..];
  }

  /** The physical position, counted from the head, of logical position `k`. */
  function Physical(k: int, n: int, reversed: bool): (r: int)
    ensures 0 <= k < n ==> 0 <= r < n
  {
    if reversed then n - 1 - k else k
  }

  lemma OrientedAt<T>(s: seq<T>, reversed: bool, k: nat)
    requires k < |s|
    ensures |Oriented(s, reversed)| == |s|
    ensures 0 <= Physical(k, |s|, reversed) < |s|
    ensures Oriented(s, reversed)[k] == s[Physical(k, |s|, reversed)]
  {
    if reversed {
      ReverseAt(s, k);
    }
  }

  /** Flipping the flag reverses the view, whichever way it pointed before. */
  lemma OrientedFlip<T>(s: seq<T>, reversed: bool)
    ensures Oriented(s, !reversed) == Reverse(Oriented(s, reversed))
  {
    if reversed {
      ReverseInvolutive(s);
    }
  }

  /**
   * The elements `s[k]` for which `p(s[k], k)` holds, in their order in `s`;
   * the predicate receives the element and its 0-based position.
   */
  function Filtered<T>(s: seq<T>, p: (T, nat) -> bool): (r: seq<T>)
    ensures |r| <= |s|
  {
    if s == [] then []
    else
      var k := |s| - 1;
      Filtered(s[..k], p) + (if p(s[k], k) then [s[k]] else [])
  }

  /** `f(s[k], k)` for every position `k`, in order. */
  function MapIndexed<T, U>(s: seq<T>, f: (T, nat) -> U): (r: seq<U>)
    ensures |r| == |s|
    ensures forall k :: 0 <= k < |s| ==> r[k] == f(s[k], k)
  {
    if s == [] then []
    else
      var k := |s| - 1;
      MapIndexed(s[..k], f) + [f(s[k], k)]
  }

  /** Extending the prefix by one position extends the mapped prefix by one value. */
  lemma MapIndexedSnoc<T, U>(s: seq<T>, k: nat, f: (T, nat) -> U)
    requires k < |s|
    ensures MapIndexed(s[..k + 1], f) == MapIndexed(s[..k], f) + [f(s[k], k)]
  {
    assert s[..k + 1][..k] == s[..k];
  }

  /** Extending the prefix by one position keeps that element exactly when it passes. */
  lemma FilteredSnoc<T>(s: seq<T>, k: nat, p: (T, nat) -> bool)
    requires k < |s|
    ensures Filtered(s[..k + 1], p) == Filtered(s[..k], p) + (if p(s[k], k) then [s[k]] else [])
  {
    assert s[..k + 1][..k] == s[..k];
  }

  /** Every kept element is an element of `s` at a position that passes. */
  lemma {:induction false} FilteredSound<T>(s: seq<T>, p: (T, nat) -> bool, x: T)
    requires x in Filtered(s, p)
    ensures exists i :: 0 <= i < |s| && s[i] == x && p(s[i], i)
  {
    var k := |s| - 1;
    if x in Filtered(s[..k], p) {
      FilteredSound(s[..k], p, x);
      var i :| 0 <= i < k && s[..k][i] == x && p(s[..k][i], i);
      assert s[i] == x;
    } else {
      assert s[k] == x && p(s[k], k);
    }
  }

  /** Every element at a passing position is kept. */
  lemma {:induction false} FilteredComplete<T>(s: seq<T>, p: (T, nat) -> bool, i: nat)
    requires i < |s| && p(s[i], i)
    ensures s[i] in Filtered(s, p)
  {
    var k := |s| - 1;
    if i < k {
      assert s[..k][i] == s[i];
      FilteredComplete(s[..k], p, i);
    }
  }

  /** When every position passes, nothing is dropped. */
  lemma {:induction false} FilteredAll<T>(s: seq<T>, p: (T, nat) -> bool)
    requires forall i :: 0 <= i < |s| ==> p(s[i], i)
    ensures Filtered(s, p) == s
  {
    if s != [] {
      var k := |s| - 1;
      var prefix := s[..k];
      assert forall i :: 0 <= i < |prefix| ==> p(prefix[i], i) by {
        forall i | 0 <= i < |prefix|
          ensures p(prefix[i], i)
        {
          assert prefix[i] == s[i];
        }
      }
      FilteredAll(prefix, p);
      assert Filtered(s, p) == prefix + [s[k]];
      assert prefix + [s[k]] == s;
    }
  }

  /** When no position passes, the result is empty. */
  lemma {:induction false} FilteredNone<T>(s: seq<T>, p: (T, nat) -> bool)
    requires forall i :: 0 <= i < |s| ==> !p(s[i], i)
    ensures Filtered(s, p) == []
  {
    if s != [] {
      var k := |s| - 1;
      assert forall i :: 0 <= i < k ==> s[..k][i] == s[i];
      FilteredNone(s[..k], p);
    }
  }

  /** Each value turned into its string form by `show`. */
  function Shown<T>(s: seq<T>, show: T -> string): seq<string>
  {
    seq(|s|, i requires 0 <= i < |s| => show(s[i]))
  }

  /** `parts` joined with `sep` between neighbours, as `Array.prototype.join`. */
  function Join(parts: seq<string>, sep: string): string
  {
    if |parts| == 0 then ""
    else if |parts| == 1 then parts[0]
    else parts[0] + sep + Join(parts[1..], sep)
  }

  lemma {:induction false} JoinSnoc(parts: seq<string>, sep: string, x: string)
    requires |parts| >= 1
    ensures Join(parts + [x], sep) == Join(parts, sep) + sep + x
  {
    if |parts| > 1 {
      assert (parts + [x])[1..] == parts[1..] + [x];
      JoinSnoc(parts[1..], sep, x);
    } else {
      assert (parts + [x])[1..] == [x];
    }
  }

  /**
   * The `toString` format: "null" for no elements, "null<-v0" for one, and
   * "null<-v0<->v1<->...<->vk->null" otherwise.
   */
  function Render(parts: seq<string>): string
  {
    if |parts| == 0 then "null"
    else if |parts| == 1 then "null<-" + parts[0]
    else "null<-" + Join(parts, "<->") + "->null"
  }

  /** Appending to a one-element list closes the rendering with "->null". */
  lemma RenderSecond(v: string, x: string)
    ensures Render([v, x]) == Render([v]) + "<->" + x + "->null"
  {
    JoinSnoc([v], "<->", x);
  }

  /** Appending to a list of two or more inserts "<->x" before the final "->null". */
  lemma RenderAppend(parts: seq<string>, x: string)
    requires |parts| >= 2
    ensures var before := Render(parts);
      |before| >= 6 && before[|before| - 6..] == "->null" &&
      Render(parts + [x]) == before[..|before| - 6] + "<->" + x + "->null"
  {
    JoinSnoc(parts, "<->", x);
    var body := "null<-" + Join(parts, "<->");
    assert Render(parts) == body + "->null";
    assert (body + "->null")[..|body|] == body;
  }
}
