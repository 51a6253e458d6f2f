/**
 * Sorting the orders of one side by the priority comparator, ascending, so that the
 * best order comes last. The library sort of the original is modelled by insertion sort:
 * on orders with distinct timestamps every sort consistent with the comparator yields the
 * same sequence (SortedPermutationUnique).
 */
module PrioritySort {
  import opened Orders

  ghost predicate OfKind(s: seq<Order>, kind: OrderType) {
    forall i :: 0 <= i < |s| ==> s[i].kind == kind
  }

  /** Ascending priority: no order is better than one that comes after it. */
  predicate SortedByPriority(s: seq<Order>) {
    forall i, j :: 0 <= i < j < |s| ==> PriorityAgainst(s[i], s[j]) <= 0
  }

  function Insert(o: Order, s: seq<Order>): (r: seq<Order>)
    ensures multiset(r) == multiset(s) + multiset{o}
  {
    if s == [] then [o]
    else if PriorityAgainst(o, s[0]) <= 0 then [o] + s
    else
      assert s == [s[0]] + s[1..];
      [s[0]] + Insert(o, s[1..])
  }

  function SortByPriority(s: seq<Order>): (r: seq<Order>)
    ensures multiset(r) == multiset(s)
  {
    if s == [] then []
    else
      assert s == [s[0]] + s[1..];
      Insert(s[0], SortByPriority(s[1..]))
  }

  lemma {:induction false} InsertSorted(o: Order, s: seq<Order>, kind: OrderType)
    requires OfKind(s, kind) && o.kind == kind
    requires SortedByPriority(s)
    ensures SortedByPriority(Insert(o, s))
  {
    if s == [] {
    } else if PriorityAgainst(o, s[0]) <= 0 {
      forall j | 0 < j < |s|
        ensures PriorityAgainst(o, s[j]) <= 0
      {
        PriorityTransitive(o, s[0], s[j]);
      }
    } else {
      var rest := Insert(o, s[1..]);
      InsertSorted(o, s[1..], kind);
      PriorityIsPriceTime(o, s[0]);
      forall j | 0 <= j < |rest|
        ensures PriorityAgainst(s[0], rest[j]) <= 0
      {
        assert rest[j] in multiset(rest);
        if rest[j] != o {
          assert rest[j] in multiset(s[1..]);
          var k :| 0 <= k < |s[1..]| && s[1..][k] == rest[j];
          assert s[k + 1] == rest[j];
        }
      }
    }
  }

  lemma {:induction false} SortSorted(s: seq<Order>, kind: OrderType)
    requires OfKind(s, kind)
    ensures SortedByPriority(SortByPriority(s))
    ensures OfKind(SortByPriority(s), kind)
  {
    if s != [] {
      SortSorted(s[1..], kind);
      InsertSorted(s[0], SortByPriority(s[1..]), kind);
    }
    var r := SortByPriority(s);
    forall i | 0 <= i < |r|
      ensures r[i].kind == kind
    {
      assert r[i] in multiset(s);
    }
  }

  /** No two entries of `s` share a timestamp. */
  ghost predicate TimestampsDistinct(s: seq<Order>) {
    forall i, j :: 0 <= i < j < |s| ==> s[i].timestamp != s[j].timestamp
  }

  /** The last element of a sorted sequence is at least as good as every element. */
  lemma LastIsBest(s: seq<Order>)
    requires SortedByPriority(s) && |s| > 0
    ensures forall i :: 0 <= i < |s| ==> PriorityAgainst(s[i], s[|s| - 1]) <= 0
  {
  }

  /** The best order of two sorted orderings of the same orders is the same order. */
  lemma SameLast(s: seq<Order>, t: seq<Order>, kind: OrderType)
    requires OfKind(s, kind) && SortedByPriority(s) && SortedByPriority(t)
    requires multiset(s) == multiset(t) && |s| == |t| > 0
    requires TimestampsDistinct(s)
    ensures s[|s| - 1] == t[|t| - 1]
  {
    var n := |s| - 1;
    assert t[n] in multiset(s);
    var k :| 0 <= k < |s| && s[k] == t[n];
    assert s[n] in multiset(t);
    var m :| 0 <= m < |t| && t[m] == s[n];
    if k < n {
      if m < n {
        assert PriorityAgainst(t[m], t[n]) <= 0;
      }
      PriorityIsPriceTime(s[k], s[n]);
      assert false;
    }
  }

  /** Dropping the last element keeps a sequence sorted, of one side, and free of timestamp clashes. */
  lemma DropLast(s: seq<Order>, kind: OrderType)
    requires |s| > 0 && SortedByPriority(s) && OfKind(s, kind)
    ensures SortedByPriority(s[..|s| - 1]) && OfKind(s[..|s| - 1], kind)
    ensures TimestampsDistinct(s) ==> TimestampsDistinct(s[..|s| - 1])
  {
  }

  /** Equal multisets with equal last elements have equal multisets of the rest. */
  lemma DropLastMultiset(s: seq<Order>, t: seq<Order>)
    requires multiset(s) == multiset(t) && |s| == |t| > 0 && s[|s| - 1] == t[|t| - 1]
    ensures multiset(s[..|s| - 1]) == multiset(t[..|t| - 1])
  {
    var n := |s| - 1;
    assert s == s[..n] + [s[n]];
    assert t == t[..n] + [t[n]];
    calc {
      multiset(s[..n]);
      multiset(s) - multiset{s[n]};
      multiset(t) - multiset{t[n]};
      multiset(t[..n]);
    }
  }

  /**
   * Two sorted orderings of the same orders are the same sequence when no two of the
   * orders share a timestamp; so the choice of sorting algorithm does not matter.
   */
  lemma {:induction false} SortedPermutationUnique(s: seq<Order>, t: seq<Order>, kind: OrderType)
    requires OfKind(s, kind) && SortedByPriority(s) && SortedByPriority(t)
    requires multiset(s) == multiset(t)
    requires TimestampsDistinct(s)
    ensures s == t
  {
    assert |t| == |s| by {
      assert |multiset(t)| == |multiset(s)|;
    }
    if s != [] {
      var n := |s| - 1;
      SameLast(s, t, kind);
      DropLast(s, kind);
      assert SortedByPriority(t[..n]);
      DropLastMultiset(s, t);
      SortedPermutationUnique(s[..n], t[..n], kind);
      assert s == s[..n] + [s[n]];
      assert t == t[..n] + [t[n]];
    }
  }
}
