// Exact sums over transaction entries.
module Sums {
  import opened Decimals
  import opened Entries

  // The sum of a quantity over the entries.
  ghost function Total(entries: seq<Entry>, quantity: Entry -> real): real {
    if entries == [] then 0.0
    else Total(entries[..|entries| - 1], quantity) + quantity(entries[|entries| - 1])
  }

  lemma {:induction false} TotalConcat(a: seq<Entry>, b: seq<Entry>, quantity: Entry -> real)
    ensures Total(a + b, quantity) == Total(a, quantity) + Total(b, quantity)
  {
    if b == [] {
      assert a + b == a;
    } else {
      var front := b[..|b| - 1];
      assert (a + b)[..|a + b| - 1] == a + front;
      TotalConcat(a, front, quantity);
    }
  }

  lemma TotalOne(e: Entry, quantity: Entry -> real)
    ensures Total([e], quantity) == quantity(e)
  {
    assert [e][..0] == [];
  }

  // Taking one entry out.
  lemma TotalWithout(front: seq<Entry>, e: Entry, back: seq<Entry>, quantity: Entry -> real)
    ensures Total(front + [e] + back, quantity) == Total(front + back, quantity) + quantity(e)
  {
    TotalConcat(front + [e], back, quantity);
    TotalConcat(front, [e], quantity);
    TotalConcat(front, back, quantity);
    TotalOne(e, quantity);
  }

  // A sum does not depend on the order of the entries.
  lemma {:induction false} TotalPermuted(a: seq<Entry>, b: seq<Entry>, quantity: Entry -> real)
    requires multiset(a) == multiset(b)
    ensures Total(a, quantity) == Total(b, quantity)
  {
    if a == [] {
      assert |b| == |multiset(b)| == |multiset(a)| == 0;
    } else {
      var e, rest := a[|a| - 1], a[..|a| - 1];
      assert a == rest + [e];
      assert e in multiset(b);
      var front, back := SplitAt(b, e);
      MultisetWithout(rest, e, front, back);
      TotalPermuted(rest, front + back, quantity);
      TotalWithout(front, e, back, quantity);
    }
  }

  lemma SplitAt(b: seq<Entry>, e: Entry) returns (front: seq<Entry>, back: seq<Entry>)
    requires e in b
    ensures b == front + [e] + back
  {
    var i :| 0 <= i < |b| && b[i] == e;
    front, back := b[..i], b[i + 1..];
  }

  lemma MultisetWithout(rest: seq<Entry>, e: Entry, front: seq<Entry>, back: seq<Entry>)
    requires multiset(rest + [e]) == multiset(front + [e] + back)
    ensures multiset(rest) == multiset(front + back)
  {
    assert multiset(rest + [e]) == multiset(rest) + multiset{e};
    assert multiset(front + [e] + back) == multiset(front) + multiset{e} + multiset(back);
    assert multiset(front + back) == multiset(front) + multiset(back);
    assert multiset(rest) == multiset(rest + [e]) - multiset{e};
  }

  // If every difference is bounded, the difference of the sums is.
  lemma {:induction false} TotalBound(
    entries: seq<Entry>, quantity: Entry -> real, other: Entry -> real, bound: Entry -> real)
    requires forall e :: e in entries ==> RealAbs(quantity(e) - other(e)) <= bound(e)
    ensures RealAbs(Total(entries, quantity) - Total(entries, other)) <= Total(entries, bound)
  {
    if entries != [] {
      assert forall e :: e in entries[..|entries| - 1] ==> e in entries;
      TotalBound(entries[..|entries| - 1], quantity, other, bound);
    }
  }
}
