/**
 The ordering `handleSelect` imposes on its resolved events: an in-place
 `sort` whose comparator subtracts the parsed timestamp of the second event
 from that of the first, so earlier events come first.

 `Array.prototype.sort` is stable (ECMAScript 2019 onwards) and, by the
 language's SortCompare rule, places `undefined` elements (ids that did not
 resolve) after every other element without passing them to the comparator.
 `ArraySort` computes that result by a stable insertion sort;
 `ArraySortUnique` shows that no other arrangement meets those rules, so any
 conforming engine returns the same array.
 */
module Ordering {
  import opened Domain

  /** The order the sorted array ends up in: resolved events by timestamp
      (the comparator `a - b` is at most zero), an undefined entry after
      everything. */
  predicate InOrder(x: Option<Event>, y: Option<Event>)
  {
    match (x, y)
    case (Some(a), Some(b)) => a.timestamp <= b.timestamp
    case (Some(_), None) => true
    case (None, None) => true
    case (None, Some(_)) => false
  }

  ghost predicate Sorted(s: seq<Option<Event>>)
  {
    forall i, j :: 0 <= i < j < |s| ==> InOrder(s[i], s[j])
  }

  /** The resolved events of `s` whose timestamp is `t`, in their order in
      `s`. A sort is stable when it leaves each of these unchanged. */
  function WithTime(s: seq<Option<Event>>, t: int): seq<Event>
  {
    if s == [] then [] else Group(s[0], t) + WithTime(s[1..], t)
  }

  /** What one entry contributes to the timestamp group `t`. */
  function Group(x: Option<Event>, t: int): seq<Event>
  {
    if x.Some? && x.value.timestamp == t then [x.value] else []
  }

  /** Puts `x` before the first element it is in order with. */
  function Insert(x: Option<Event>, s: seq<Option<Event>>): seq<Option<Event>>
  {
    if s == [] || InOrder(x, s[0]) then [x] + s
    else [s[0]] + Insert(x, s[1..])
  }

  /** The array after `sort`, computed by a stable insertion sort. It is a
      rearrangement of `s`: nothing is dropped, added or deduplicated. */
  function ArraySort(s: seq<Option<Event>>): (r: seq<Option<Event>>)
    ensures |r| == |s|
    ensures multiset(r) == multiset(s)
  {
    if s == [] then []
    else
      InsertPermutes(s[0], ArraySort(s[1..]));
      assert s == [s[0]] + s[1..];
      Insert(s[0], ArraySort(s[1..]))
  }

  // ---------------------------------------------------------------------
  // Facts about the helpers

  lemma SortedTail(s: seq<Option<Event>>)
    requires Sorted(s) && s != []
    ensures Sorted(s[1..])
  {
    forall i, j | 0 <= i < j < |s[1..]| ensures InOrder(s[1..][i], s[1..][j]) {
      assert s[1..][i] == s[i + 1] && s[1..][j] == s[j + 1];
    }
  }

  lemma {:induction false} InsertPermutes(x: Option<Event>, s: seq<Option<Event>>)
    ensures |Insert(x, s)| == |s| + 1
    ensures multiset(Insert(x, s)) == multiset{x} + multiset(s)
  {
    if !(s == [] || InOrder(x, s[0])) {
      InsertPermutes(x, s[1..]);
      assert s == [s[0]] + s[1..];
    }
  }

  lemma {:induction false} InsertKeepsGroups(x: Option<Event>, s: seq<Option<Event>>, t: int)
    ensures WithTime(Insert(x, s), t) == Group(x, t) + WithTime(s, t)
  {
    if s == [] || InOrder(x, s[0]) {
      assert ([x] + s)[1..] == s;
    } else {
      var r := Insert(x, s[1..]);
      InsertKeepsGroups(x, s[1..], t);
      assert ([s[0]] + r)[1..] == r;
      // `x` goes after `s[0]` only when `s[0]` is strictly earlier, so
      // the two never share a timestamp group
      assert Group(x, t) == [] || Group(s[0], t) == [];
    }
  }

  lemma {:induction false} InsertSorted(x: Option<Event>, s: seq<Option<Event>>)
    requires Sorted(s)
    ensures Sorted(Insert(x, s))
  {
    if s == [] || InOrder(x, s[0]) {
      var r := [x] + s;
      forall i, j | 0 <= i < j < |r| ensures InOrder(r[i], r[j]) {
        if i == 0 && j > 1 {
          assert InOrder(s[0], s[j - 1]);
        } else if i > 0 {
          assert r[i] == s[i - 1] && r[j] == s[j - 1];
        }
      }
    } else {
      SortedTail(s);
      var r := Insert(x, s[1..]);
      InsertSorted(x, s[1..]);
      InsertPermutes(x, s[1..]);
      // the head of `r` is `x` or `s[1]`, and `s[0]` is in order with both
      assert InOrder(s[0], r[0]) by {
        if s[1..] != [] { assert InOrder(s[0], s[1..][0]); }
      }
      var q := [s[0]] + r;
      forall i, j | 0 <= i < j < |q| ensures InOrder(q[i], q[j]) {
        if i == 0 {
          if j > 1 { assert InOrder(r[0], r[j - 1]); }
        } else {
          assert q[i] == r[i - 1] && q[j] == r[j - 1];
        }
      }
    }
  }

  lemma {:induction false} FirstBounds(s: seq<Option<Event>>, t: int)
    requires Sorted(s) && s != []
    ensures WithTime(s, t) != [] ==> s[0].Some? && s[0].value.timestamp <= t
  {
    if WithTime(s, t) != [] && !(s[0].Some? && s[0].value.timestamp == t) {
      assert WithTime(s, t) == WithTime(s[1..], t);
      assert s[1..] != [];
      SortedTail(s);
      FirstBounds(s[1..], t);
      assert InOrder(s[0], s[1]);
    }
  }

  lemma {:induction false} ArraySortSorted(s: seq<Option<Event>>)
    ensures Sorted(ArraySort(s))
  {
    if s != [] {
      ArraySortSorted(s[1..]);
      InsertSorted(s[0], ArraySort(s[1..]));
    }
  }

  lemma {:induction false} ArraySortStable(s: seq<Option<Event>>, t: int)
    ensures WithTime(ArraySort(s), t) == WithTime(s, t)
  {
    if s != [] {
      ArraySortStable(s[1..], t);
      InsertKeepsGroups(s[0], ArraySort(s[1..]), t);
    }
  }

  // ---------------------------------------------------------------------
  // The properties

  /** `sort` keeps every entry (a permutation: nothing deduplicated,
      nothing dropped), leaves the array in order with any undefined
      entries last, and keeps events with equal timestamps in input order. */
  lemma ArraySortSpec(s: seq<Option<Event>>)
    ensures |ArraySort(s)| == |s|
    ensures multiset(ArraySort(s)) == multiset(s)
    ensures Sorted(ArraySort(s))
    ensures forall t :: WithTime(ArraySort(s), t) == WithTime(s, t)
  {
    ArraySortSorted(s);
    forall t ensures WithTime(ArraySort(s), t) == WithTime(s, t) {
      ArraySortStable(s, t);
    }
  }

  /** Two arrays of one length, both in order and with the same timestamp
      groups, are equal: a stable sort has exactly one answer. */
  lemma {:induction false} StableSortUnique(a: seq<Option<Event>>, b: seq<Option<Event>>)
    requires |a| == |b|
    requires Sorted(a) && Sorted(b)
    requires forall t :: WithTime(a, t) == WithTime(b, t)
    ensures a == b
  {
    if a != [] {
      var ta := if a[0].Some? then a[0].value.timestamp else 0;
      var tb := if b[0].Some? then b[0].value.timestamp else 0;
      FirstBounds(a, tb);
      FirstBounds(b, ta);
      assert a[0].Some? ==> WithTime(a, ta)[0] == a[0].value;
      assert b[0].Some? ==> WithTime(b, tb)[0] == b[0].value;
      assert a[0] == b[0];
      SortedTail(a);
      SortedTail(b);
      forall t ensures WithTime(a[1..], t) == WithTime(b[1..], t) {
        var p := Group(a[0], t);
        assert WithTime(a, t) == p + WithTime(a[1..], t);
        assert WithTime(b, t) == p + WithTime(b[1..], t);
        assert (p + WithTime(a[1..], t))[|p|..] == WithTime(a[1..], t);
        assert (p + WithTime(b[1..], t))[|p|..] == WithTime(b[1..], t);
      }
      StableSortUnique(a[1..], b[1..]);
      assert a == [a[0]] + a[1..] && b == [b[0]] + b[1..];
    }
  }

  /** Whatever a conforming `sort` returns (same length, in order, stable)
      is exactly `ArraySort`. */
  lemma ArraySortUnique(s: seq<Option<Event>>, r: seq<Option<Event>>)
    requires |r| == |s| && Sorted(r)
    requires forall t :: WithTime(r, t) == WithTime(s, t)
    ensures r == ArraySort(s)
  {
    ArraySortSpec(s);
    StableSortUnique(r, ArraySort(s));
  }

  /** A one-element array is left as it is. */
  lemma ArraySortSingleton(x: Option<Event>)
    ensures ArraySort([x]) == [x]
  {
  }
}
