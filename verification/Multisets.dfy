/** Two facts about sums of multisets. */
module Multisets {
  lemma Shift<T>(a: multiset<T>, x: multiset<T>, c: multiset<T>, y: multiset<T>, d: multiset<T>)
    requires x + c == y + d
    ensures (a + x) + c == (a + y) + d
  {
    assert (a + x) + c == a + (x + c);
    assert (a + y) + d == a + (y + d);
  }

  lemma Cancel<T>(x: multiset<T>, y: multiset<T>, c: multiset<T>)
    requires x + c == y + c
    ensures x == y
  {
    forall a ensures x[a] == y[a] {
      assert (x + c)[a] == x[a] + c[a];
      assert (y + c)[a] == y[a] + c[a];
    }
  }
}
