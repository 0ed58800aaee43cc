/** Cluster chains over a table of entries: when a list of clusters is the chain of a file,
    how a chain grows, and what freeing one does to the table. */
module FatChain {
  import opened FatTable

  /** cl starts a chain whose clusters are exactly l, up to an end mark. */
  ghost predicate Chain(k: Kind, t: seq<nat>, cl: nat, l: seq<nat>)
    decreases |l|
  {
    if l == [] then IsEnd(k, cl)
    else cl == l[0] && 2 <= cl < |t| && !IsEnd(k, cl) && Chain(k, t, t[cl], l[1..])
  }

  /** A table determines the chain. */
  lemma {:induction false} ChainUnique(k: Kind, t: seq<nat>, cl: nat, l: seq<nat>, m: seq<nat>)
    requires Chain(k, t, cl, l) && Chain(k, t, cl, m)
    ensures l == m
    decreases |l|
  {
    hide IsEnd;
    if l != [] && m != [] {
      ChainUnique(k, t, t[cl], l[1..], m[1..]);
      assert l == [l[0]] + l[1..] && m == [m[0]] + m[1..];
    }
  }

  lemma {:induction false} ChainInside(k: Kind, t: seq<nat>, cl: nat, l: seq<nat>)
    requires Chain(k, t, cl, l)
    ensures forall j :: 0 <= j < |l| ==> 2 <= l[j] < |t| && !IsEnd(k, l[j])
    decreases |l|
  {
    hide IsEnd;
    if l != [] {
      ChainInside(k, t, t[cl], l[1..]);
      forall j | 0 <= j < |l| ensures 2 <= l[j] < |t| && !IsEnd(k, l[j]) {
        if j > 0 {
          assert l[j] == l[1..][j - 1];
        }
      }
    }
  }

  lemma {:induction false} ChainSuffix(k: Kind, t: seq<nat>, cl: nat, l: seq<nat>, i: nat)
    requires Chain(k, t, cl, l) && i < |l|
    ensures Chain(k, t, l[i], l[i..])
    decreases |l|
  {
    hide IsEnd;
    if i > 0 {
      ChainSuffix(k, t, t[cl], l[1..], i - 1);
      assert l[1..][i - 1..] == l[i..] && l[1..][i - 1] == l[i];
    } else {
      assert l[0..] == l;
    }
  }

  /** A chain that ends visits no cluster twice. */
  lemma ChainNoRepeat(k: Kind, t: seq<nat>, cl: nat, l: seq<nat>, i: nat, j: nat)
    requires Chain(k, t, cl, l) && i < j < |l|
    ensures l[i] != l[j]
  {
    hide IsEnd, Chain;
    if l[i] == l[j] {
      ChainSuffix(k, t, cl, l, i);
      ChainSuffix(k, t, cl, l, j);
      ChainUnique(k, t, l[i], l[i..], l[j..]);
    }
  }

  lemma ChainDistinct(k: Kind, t: seq<nat>, cl: nat, l: seq<nat>)
    requires Chain(k, t, cl, l)
    ensures forall i, j :: 0 <= i < j < |l| ==> l[i] != l[j]
  {
    hide IsEnd, Chain;
    forall i, j | 0 <= i < j < |l| ensures l[i] != l[j] {
      ChainNoRepeat(k, t, cl, l, i, j);
    }
  }

  /** The entry of a cluster of the chain leads to the next, and the last one's ends the chain. */
  lemma ChainNext(k: Kind, t: seq<nat>, cl: nat, l: seq<nat>, i: nat)
    requires Chain(k, t, cl, l) && i < |l|
    ensures l[i] < |t| && 2 <= l[i] && !IsEnd(k, l[i])
    ensures if i + 1 < |l| then t[l[i]] == l[i + 1] && t[l[i]] >= 2 && !IsEnd(k, t[l[i]]) else IsEnd(k, t[l[i]])
  {
    hide IsEnd;
    ChainSuffix(k, t, cl, l, i);
    assert l[i..][1..] == l[i + 1..];
  }

  /** A chain depends on the entries of its own clusters alone. */
  lemma {:induction false} ChainFrame(k: Kind, t: seq<nat>, t': seq<nat>, cl: nat, l: seq<nat>)
    requires Chain(k, t, cl, l) && |t'| == |t|
    requires forall i :: 0 <= i < |l| && l[i] < |t| ==> t'[l[i]] == t[l[i]]
    ensures Chain(k, t', cl, l)
    decreases |l|
  {
    hide IsEnd;
    if l != [] {
      forall i | 0 <= i < |l[1..]| && l[1..][i] < |t| ensures t'[l[1..][i]] == t[l[1..][i]] {
        assert l[1..][i] == l[i + 1];
      }
      ChainFrame(k, t, t', t[cl], l[1..]);
    }
  }

  // ---------- growth ----------

  /** The table after a free cluster has been linked behind the last one of a chain. */
  function Appended(k: Kind, t: seq<nat>, last: nat, nc: nat): seq<nat>
    requires last < |t| && nc < |t|
  {
    t[nc := EndMark(k)][last := nc]
  }

  /** A free cluster is in no chain. */
  lemma FreeNotIn(k: Kind, t: seq<nat>, cl: nat, l: seq<nat>, nc: nat)
    requires Chain(k, t, cl, l) && nc < |t| && t[nc] == 0
    ensures nc !in l
  {
    hide Chain;
    if nc in l {
      var i :| 0 <= i < |l| && l[i] == nc;
      ChainNext(k, t, cl, l, i);
    }
  }

  /** A chain grows by a free cluster that it did not hold. */
  lemma ChainAppend(k: Kind, t: seq<nat>, cl: nat, l: seq<nat>, nc: nat)
    requires Chain(k, t, cl, l) && l != [] && 2 <= nc < |t| <= Limit(k) && t[nc] == 0
    ensures nc !in l && l[|l| - 1] < |t|
    ensures Chain(k, Appended(k, t, l[|l| - 1], nc), cl, l + [nc])
  {
    hide Chain, Appended;
    ChainNext(k, t, cl, l, |l| - 1);
    FreeNotIn(k, t, cl, l, nc);
    ChainDistinct(k, t, cl, l);
    AppendedFrom(k, t, l[|l| - 1], cl, l, nc);
  }

  lemma {:induction false} AppendedFrom(k: Kind, t: seq<nat>, last: nat, cl: nat, l: seq<nat>, nc: nat)
    requires Chain(k, t, cl, l) && l != [] && last == l[|l| - 1] < |t| && 2 <= nc < |t| <= Limit(k)
    requires nc !in l && forall i, j :: 0 <= i < j < |l| ==> l[i] != l[j]
    ensures Chain(k, Appended(k, t, last, nc), cl, l + [nc])
    decreases |l|
  {
    var t' := Appended(k, t, last, nc);
    var m := l + [nc];
    if |l| == 1 {
      assert m[1..] == [nc];
      assert Chain(k, t', EndMark(k), [nc][1..]);
    } else {
      assert l[0] != last;
      AppendedFrom(k, t, last, t[cl], l[1..], nc);
      assert m[1..] == l[1..] + [nc];
    }
  }

  // ---------- freeing ----------

  /** Every cluster of the list has its entry inside one sector. */
  ghost predicate Plain(k: Kind, l: seq<nat>) { forall i :: 0 <= i < |l| ==> InOneSector(k, l[i]) }

  /** free_chain from cl on visits, for so many clusters, only entries that it can read. */
  ghost predicate Walkable(k: Kind, t: seq<nat>, cl: nat, fuel: nat)
    decreases fuel
  {
    fuel == 0 || IsEnd(k, cl) || cl < 2 ||
    (cl < |t| && InOneSector(k, cl) && Walkable(k, t[cl := 0], t[cl], fuel - 1))
  }

  /** The table after free_chain, stopped after so many clusters. */
  ghost function Cut(k: Kind, t: seq<nat>, cl: nat, fuel: nat): (t': seq<nat>)
    requires Walkable(k, t, cl, fuel)
    ensures |t'| == |t|
    decreases fuel
  {
    if fuel == 0 || IsEnd(k, cl) || cl < 2 then t else Cut(k, t[cl := 0], t[cl], fuel - 1)
  }

  lemma CutStep(k: Kind, t: seq<nat>, cl: nat, fuel: nat)
    requires Walkable(k, t, cl, fuel) && 2 <= cl && !IsEnd(k, cl) && fuel > 0
    ensures cl < |t| && InOneSector(k, cl) && Walkable(k, t[cl := 0], t[cl], fuel - 1)
    ensures Cut(k, t, cl, fuel) == Cut(k, t[cl := 0], t[cl], fuel - 1)
  {
  }

  lemma CutEnd(k: Kind, t: seq<nat>, cl: nat, fuel: nat)
    requires fuel == 0 || IsEnd(k, cl) || cl < 2
    ensures Walkable(k, t, cl, fuel) && Cut(k, t, cl, fuel) == t
  {
  }

  /** The entries that are not zero. */
  function InUse(t: seq<nat>): nat { if t == [] then 0 else InUse(t[..|t| - 1]) + if t[|t| - 1] == 0 then 0 else 1 }

  lemma {:induction false} InUseLess(t: seq<nat>, c: nat)
    requires c < |t| && t[c] != 0
    ensures InUse(t[c := 0]) == InUse(t) - 1
  {
    var n := |t| - 1;
    if c < n {
      InUseLess(t[..n], c);
      assert t[c := 0][..n] == t[..n][c := 0];
    } else {
      assert t[c := 0][..n] == t[..n];
    }
  }

  /** Freeing stops by itself on every table, a cyclic one too: each cluster visited loses a
      non-zero entry, so a bound above their number has no effect. */
  lemma {:induction false} CutStops(k: Kind, t: seq<nat>, cl: nat, fuel: nat, more: nat)
    requires Walkable(k, t, cl, fuel) && InUse(t) < fuel <= more
    ensures Walkable(k, t, cl, more) && Cut(k, t, cl, fuel) == Cut(k, t, cl, more)
    decreases fuel
  {
    hide IsEnd, InUse, InOneSector;
    if !IsEnd(k, cl) && cl >= 2 {
      if t[cl] != 0 {
        InUseLess(t, cl);
        CutStops(k, t[cl := 0], t[cl], fuel - 1, more - 1);
      }
    }
  }

  /** The table with the entries of a list of clusters cleared. */
  function Cleared(t: seq<nat>, l: seq<nat>): (t': seq<nat>)
    ensures |t'| == |t| && forall c :: 0 <= c < |t| ==> t'[c] == if c in l then 0 else t[c]
  {
    seq(|t|, c requires 0 <= c < |t| => if c in l then 0 else t[c])
  }

  function First(l: seq<nat>, n: nat): seq<nat> { if n <= |l| then l[..n] else l }

  /** On a chain, freeing clears exactly its clusters, as far as the bound allows. */
  lemma {:induction false} CutChain(k: Kind, t: seq<nat>, cl: nat, l: seq<nat>, fuel: nat)
    requires Chain(k, t, cl, l) && Plain(k, l)
    ensures Walkable(k, t, cl, fuel) && Cut(k, t, cl, fuel) == Cleared(t, First(l, fuel))
    decreases |l|
  {
    hide IsEnd, InOneSector;
    if l != [] && fuel > 0 {
      var t1 := t[cl := 0];
      Unlinked(k, t, cl, l);
      PlainRest(k, l);
      CutChain(k, t1, t[cl], l[1..], fuel - 1);
      ClearedMore(t, l, fuel);
    }
  }

  lemma PlainRest(k: Kind, l: seq<nat>)
    requires Plain(k, l) && l != []
    ensures Plain(k, l[1..]) && InOneSector(k, l[0])
  {
    hide InOneSector;
    forall i | 0 <= i < |l[1..]| ensures InOneSector(k, l[1..][i]) {
      assert l[1..][i] == l[i + 1];
    }
  }

  /** With its first entry cleared, the rest of a chain is a chain. */
  lemma Unlinked(k: Kind, t: seq<nat>, cl: nat, l: seq<nat>)
    requires Chain(k, t, cl, l) && l != []
    ensures cl == l[0] && 2 <= cl < |t| && !IsEnd(k, cl) && Chain(k, t[cl := 0], t[cl], l[1..])
  {
    hide IsEnd;
    var t1 := t[cl := 0];
    ChainDistinct(k, t, cl, l);
    forall i | 0 <= i < |l[1..]| && l[1..][i] < |t| ensures t1[l[1..][i]] == t[l[1..][i]] {
      assert l[1..][i] == l[i + 1] != l[0];
    }
    ChainFrame(k, t, t1, t[cl], l[1..]);
  }

  lemma ClearedMore(t: seq<nat>, l: seq<nat>, fuel: nat)
    requires l != [] && l[0] < |t| && fuel > 0
    ensures Cleared(t[l[0] := 0], First(l[1..], fuel - 1)) == Cleared(t, First(l, fuel))
  {
    var a, b := First(l[1..], fuel - 1), First(l, fuel);
    assert b == [l[0]] + a;
  }

  // ---------- conservation ----------

  ghost function FreeClusters(t: seq<nat>): set<nat> { set c: nat | 2 <= c < |t| && t[c] == 0 }

  /** Table t' differs from t only in the clusters of l' and those that the list gained were free. */
  ghost predicate Grew(t: seq<nat>, t': seq<nat>, l: seq<nat>, l': seq<nat>) {
    && |t'| == |t| && l <= l'
    && (forall c :: 0 <= c < |t| && c !in l' ==> t'[c] == t[c])
    && (forall i :: |l| <= i < |l'| ==> 2 <= l'[i] < |t| && t[l'[i]] == 0)
  }

  lemma PrefixElements(l: seq<nat>, l': seq<nat>)
    requires l <= l'
    ensures forall i :: 0 <= i < |l| ==> l'[i] == l[i]
  {
  }

  /** Growing a file and freeing it gives back exactly the clusters the file had at first,
      if and only if the chain is no longer than the bound of free_chain. */
  lemma FreedAfterGrowth(k: Kind, t: seq<nat>, t': seq<nat>, cl: nat, l: seq<nat>, l': seq<nat>, fuel: nat)
    requires Chain(k, t, cl, l) && Grew(t, t', l, l') && Chain(k, t', cl, l') && Plain(k, l')
    ensures Walkable(k, t', cl, fuel)
    ensures FreeClusters(Cut(k, t', cl, fuel)) == FreeClusters(t) + (set c | c in l) <==> |l'| <= fuel
  {
    hide IsEnd, Chain, Cut, Walkable, InOneSector, First;
    CutChain(k, t', cl, l', fuel);
    if |l'| <= fuel {
      assert First(l', fuel) == l' by {
        FirstAll(l', fuel);
      }
      AllGivenBack(k, t, t', cl, l, l');
    } else {
      LeftBehind(k, t, t', cl, l, l', fuel);
    }
  }

  lemma FirstAll(l: seq<nat>, n: nat)
    requires |l| <= n
    ensures First(l, n) == l
  {
  }

  lemma AllGivenBack(k: Kind, t: seq<nat>, t': seq<nat>, cl: nat, l: seq<nat>, l': seq<nat>)
    requires Chain(k, t, cl, l) && Grew(t, t', l, l')
    ensures FreeClusters(Cleared(t', l')) == FreeClusters(t) + (set c | c in l)
  {
    hide IsEnd, Chain;
    ChainInside(k, t, cl, l);
    var u := Cleared(t', l');
    PrefixElements(l, l');
    forall c: nat ensures c in FreeClusters(u) <==> c in FreeClusters(t) || c in l {
      if c in l' && c !in l {
        var i :| 0 <= i < |l'| && l'[i] == c;
      }
      if c in l {
        var i :| 0 <= i < |l| && l[i] == c;
        assert l'[i] == c;
      }
    }
  }

  /** A chain longer than the bound keeps its cluster at the bound. */
  lemma LeftBehind(k: Kind, t: seq<nat>, t': seq<nat>, cl: nat, l: seq<nat>, l': seq<nat>, fuel: nat)
    requires Grew(t, t', l, l') && Chain(k, t', cl, l') && fuel < |l'|
    ensures l'[fuel] !in FreeClusters(Cleared(t', First(l', fuel)))
    ensures l'[fuel] in FreeClusters(t) + (set c | c in l)
  {
    hide Chain;
    var c := l'[fuel];
    ChainNext(k, t', cl, l', fuel);
    ChainDistinct(k, t', cl, l');
    assert c !in First(l', fuel);
    PrefixElements(l, l');
  }
}
