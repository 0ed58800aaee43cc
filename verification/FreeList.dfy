/** The doubly linked list that threads the free blocks of the heap, its nodes kept in memory
    by address and 0 the null pointer. */
module FreeList {

  datatype Node = Node(next: nat, prev: nat)

  /** Entry i of the list, or null outside it. */
  function At(l: seq<nat>, i: int): nat { if 0 <= i < |l| then l[i] else 0 }

  ghost predicate Distinct(l: seq<nat>) { forall i, j :: 0 <= i < j < |l| ==> l[i] != l[j] }

  /** Memory holds the list l from head on, linked both ways. */
  ghost predicate Linked(m: map<nat, Node>, head: nat, l: seq<nat>) {
    && head == At(l, 0) && Distinct(l)
    && forall i :: 0 <= i < |l| ==> l[i] != 0 && l[i] in m && m[l[i]] == Node(At(l, i + 1), At(l, i - 1))
  }

  // ---------- insertion at the head ----------

  /** The nodes after free_list_insert. */
  function Pushed(m: map<nat, Node>, head: nat, x: nat): map<nat, Node> {
    var m1 := m[x := Node(head, 0)];
    if head != 0 && head in m1 then m1[head := m1[head].(prev := x)] else m1
  }

  lemma PushLinks(m: map<nat, Node>, head: nat, l: seq<nat>, x: nat)
    requires Linked(m, head, l) && x != 0 && x !in l
    ensures Linked(Pushed(m, head, x), x, [x] + l)
  {
    var m' := Pushed(m, head, x);
    var l' := [x] + l;
    forall i | 0 <= i < |l'| ensures l'[i] != 0 && l'[i] in m' && m'[l'[i]] == Node(At(l', i + 1), At(l', i - 1)) {
      if i > 0 {
        assert l'[i] == l[i - 1];
        assert m[l[i - 1]] == Node(At(l, i), At(l, i - 2));
        assert i > 1 ==> l[i - 1] != l[0];
      }
    }
  }

  // ---------- removal ----------

  /** The nodes after free_list_remove, and the head. */
  function Unlinked(m: map<nat, Node>, x: nat): map<nat, Node>
    requires x in m
  {
    var n := m[x];
    var m1 := if n.prev != 0 && n.prev in m then m[n.prev := m[n.prev].(next := n.next)] else m;
    if n.next != 0 && n.next in m1 then m1[n.next := m1[n.next].(prev := n.prev)] else m1
  }

  function HeadWithout(m: map<nat, Node>, head: nat, x: nat): nat
    requires x in m
  {
    if m[x].prev != 0 then head else m[x].next
  }

  function Without(l: seq<nat>, i: nat): (r: seq<nat>)
    requires i < |l|
    ensures |r| == |l| - 1
  {
    l[..i] + l[i + 1..]
  }

  lemma WithoutElements(l: seq<nat>, i: nat)
    requires i < |l| && Distinct(l)
    ensures Distinct(Without(l, i)) && forall x :: x in Without(l, i) <==> x in l && x != l[i]
  {
    var r := Without(l, i);
    forall x ensures x in r <==> x in l && x != l[i] {
      if x in l && x != l[i] {
        var j :| 0 <= j < |l| && l[j] == x;
        assert r[if j < i then j else j - 1] == x;
      }
    }
  }

  lemma NodeAt(m: map<nat, Node>, head: nat, l: seq<nat>, i: nat)
    requires Linked(m, head, l) && i < |l|
    ensures l[i] != 0 && l[i] in m && m[l[i]] == Node(At(l, i + 1), At(l, i - 1))
  {
  }

  /** The addresses of a list tell its entries apart. */
  lemma AtIs(m: map<nat, Node>, head: nat, l: seq<nat>, j: nat, k: int)
    requires Linked(m, head, l) && j < |l|
    ensures l[j] == At(l, k) <==> j == k
    ensures At(l, k) != 0 ==> At(l, k) in m
  {
  }

  /** A remaining node after the removal of entry i: the neighbours of i now point past it. */
  lemma NodeAfter(m: map<nat, Node>, head: nat, l: seq<nat>, i: nat, j: nat)
    requires Linked(m, head, l) && i < |l| && j < |l| && j != i
    ensures l[i] in m && l[j] != 0 && l[j] in Unlinked(m, l[i])
    ensures Unlinked(m, l[i])[l[j]] ==
            Node(if j + 1 == i then At(l, j + 2) else At(l, j + 1), if j - 1 == i then At(l, j - 2) else At(l, j - 1))
  {
    hide Linked, At;
    NodeAt(m, head, l, i);
    NodeAt(m, head, l, j);
    AtIs(m, head, l, j, i + 1);
    AtIs(m, head, l, j, i - 1);
  }

  lemma WithoutAt(l: seq<nat>, i: nat, k: int)
    requires i < |l|
    ensures At(Without(l, i), k) == if k < i then At(l, k) else At(l, k + 1)
  {
  }

  lemma UnlinkLinks(m: map<nat, Node>, head: nat, l: seq<nat>, i: nat)
    requires Linked(m, head, l) && i < |l|
    ensures l[i] in m && Linked(Unlinked(m, l[i]), HeadWithout(m, head, l[i]), Without(l, i))
  {
    hide At, Distinct, Without;
    var x := l[i];
    NodeAt(m, head, l, i);
    var m' := Unlinked(m, x);
    var r := Without(l, i);
    WithoutElements(l, i);
    forall k | 0 <= k < |r| ensures r[k] != 0 && r[k] in m' && m'[r[k]] == Node(At(r, k + 1), At(r, k - 1)) {
      RemainingNode(m, head, l, i, k);
    }
    HeadAfter(m, head, l, i);
  }

  lemma RemainingNode(m: map<nat, Node>, head: nat, l: seq<nat>, i: nat, k: nat)
    requires Linked(m, head, l) && i < |l| && k < |l| - 1
    ensures var r := Without(l, i);
            l[i] in m && r[k] != 0 && r[k] in Unlinked(m, l[i]) &&
                Unlinked(m, l[i])[r[k]] == Node(At(r, k + 1), At(r, k - 1))
  {
    hide At, Distinct, Linked, Unlinked;
    var j := if k < i then k else k + 1;
    assert Without(l, i)[k] == l[j];
    NodeAfter(m, head, l, i, j);
    WithoutAt(l, i, k + 1);
    WithoutAt(l, i, k - 1);
  }

  lemma HeadAfter(m: map<nat, Node>, head: nat, l: seq<nat>, i: nat)
    requires Linked(m, head, l) && i < |l|
    ensures l[i] in m && HeadWithout(m, head, l[i]) == At(Without(l, i), 0)
  {
    hide Distinct, Linked;
    NodeAt(m, head, l, i);
    HeadIs(m, head, l);
    if i > 0 {
      NodeAt(m, head, l, i - 1);
    }
    WithoutAt(l, i, 0);
  }

  lemma HeadIs(m: map<nat, Node>, head: nat, l: seq<nat>)
    requires Linked(m, head, l)
    ensures head == At(l, 0)
  {
  }
}
