/** The files of a volume over whole runs of new files, writes and deletions: no two files ever
    share a cluster, the copies of the table agree, and every cluster is free or in one file. */
module FatRun {
  import opened Units
  import opened FatTable
  import opened FatChain
  import opened FatBytes
  import opened FatWrite
  import opened FatVolume
  import opened FatTheorems

  /** The disk, and the chain of each file under its first cluster. */
  datatype Files = Files(d: seq<Sector>, chains: map<nat, seq<nat>>)

  datatype Request = New | Write(first: nat, offset: nat, data: seq<Octet>) | Delete(first: nat)

  ghost function Members(l: seq<nat>): set<nat> { set c | c in l }

  ghost predicate FileOk(g: Geometry, d: seq<Sector>, first: nat, l: seq<nat>)
    requires Sound(g, d)
  {
    l != [] && Chain(g.kind, Table(g, d), first, l) && Plain(g.kind, l)
  }

  /** Every file is a chain, no two share a cluster, and the copies of the table agree. */
  ghost predicate Filed(g: Geometry, s: Files) {
    && Sound(g, s.d) && CopiesAgree(g, s.d)
    && (forall f :: f in s.chains ==> FileOk(g, s.d, f, s.chains[f]))
    && (forall f, h :: f in s.chains && h in s.chains && f != h ==> Members(s.chains[f]) !! Members(s.chains[h]))
  }

  /** The clusters that are free or belong to a file. */
  ghost function Owned(g: Geometry, s: Files): set<nat>
    requires Sound(g, s.d)
  {
    FreeClusters(Table(g, s.d)) + InFiles(s.chains)
  }

  ghost function InFiles(chains: map<nat, seq<nat>>): set<nat> { set f, c | f in chains && c in chains[f] :: c }

  // ---------- the requests ----------

  function Zeros(n: nat): (z: seq<Octet>)
    ensures |z| == n && forall j :: 0 <= j < n ==> z[j] == 0
  {
    seq(n, _ => 0 as Octet)
  }

  ghost predicate DataKept(g: Geometry, d: seq<Sector>, d': seq<Sector>, but: set<nat>)
    requires Sound(g, d) && Sound(g, d')
  {
    forall c :: InRange(g, c) && c !in but ==> Data(g, d', c) == Data(g, d, c)
  }

  /** Cluster c, free before, is a file of its own, filled with zeros. */
  ghost predicate Created(g: Geometry, s: Files, c: nat, s': Files) {
    && Sound(g, s.d) && Sound(g, s'.d) && InRange(g, c) && InOneSector(g.kind, c)
    && Table(g, s.d)[c] == 0 && Table(g, s'.d) == Table(g, s.d)[c := EndMark(g.kind)]
    && s'.chains == s.chains[c := [c]]
    && Data(g, s'.d, c) == Zeros(ClusterSize(g)) && DataKept(g, s.d, s'.d, {c}) && Copies(g, s.d, s'.d)
  }

  ghost predicate Written(g: Geometry, s: Files, r: Request, done: nat, l: seq<nat>, s': Files)
    requires r.Write?
  {
    && r.first in s.chains && done <= |r.data|
    && Good(g, s.d, s'.d, r.first, s.chains[r.first], l, r.offset, r.data[..done])
    && s'.chains == s.chains[r.first := l]
  }

  ghost predicate Deleted(g: Geometry, s: Files, first: nat, s': Files) {
    && Sound(g, s.d) && Sound(g, s'.d) && first in s.chains
    && Walkable(g.kind, Table(g, s.d), first, PATIENCE)
    && Table(g, s'.d) == Cut(g.kind, Table(g, s.d), first, PATIENCE)
    && s'.chains == s.chains - {first}
    && DataKept(g, s.d, s'.d, {}) && Copies(g, s.d, s'.d)
  }

  /** One request carried out. */
  ghost predicate Step(g: Geometry, s: Files, r: Request, s': Files) {
    match r
    case New => s' == s || exists c :: Created(g, s, c, s')
    case Write(_, _, _) => exists done, l :: Written(g, s, r, done, l, s')
    case Delete(first) => Deleted(g, s, first, s')
  }

  /** A file longer than the bound of free_chain loses the clusters behind it. */
  ghost predicate Loses(s: Files, r: Request) {
    r.Delete? && r.first in s.chains && |s.chains[r.first]| > 100_000
  }

  ghost predicate Names(r: Request, f: nat) {
    match r
    case New => false
    case Write(first, _, _) => first == f
    case Delete(first) => first == f
  }

  /** File f is as it was: its chain and its bytes. */
  ghost predicate SameFile(g: Geometry, s: Files, s': Files, f: nat) {
    && Filed(g, s) && Filed(g, s') && f in s.chains && f in s'.chains && s'.chains[f] == s.chains[f]
    && (FileInRange(g, s, f); FileInRange(g, s', f);
        FileBytes(g, s'.d, s.chains[f]) == FileBytes(g, s.d, s.chains[f]))
  }

  lemma FileInRange(g: Geometry, s: Files, f: nat)
    requires Filed(g, s) && f in s.chains
    ensures AllInRange(g, s.chains[f])
  {
    hide Chain, Table, Plain, CopiesAgree;
    ChainInRange(g, s.d, f, s.chains[f]);
  }

  // ---------- one file through a request ----------

  /** A file none of whose entries or clusters has changed is the same file. */
  lemma FileKept(g: Geometry, d: seq<Sector>, d': seq<Sector>, f: nat, l: seq<nat>)
    requires Sound(g, d) && Sound(g, d') && FileOk(g, d, f, l)
    requires forall c :: c in l && c < g.clusters ==> Table(g, d')[c] == Table(g, d)[c]
    requires forall c :: c in l && InRange(g, c) ==> Data(g, d', c) == Data(g, d, c)
    ensures FileOk(g, d', f, l) && AllInRange(g, l) && FileBytes(g, d', l) == FileBytes(g, d, l)
  {
    hide Table, Data, Chain, Plain, Flat;
    ChainInRange(g, d, f, l);
    ChainFrame(g.kind, Table(g, d), Table(g, d'), f, l);
    assert Pieces(g, d', l) == Pieces(g, d, l);
  }

  /** A free cluster is in no file. */
  lemma FreeInNone(g: Geometry, s: Files, f: nat, c: nat)
    requires Filed(g, s) && f in s.chains && InRange(g, c) && Table(g, s.d)[c] == 0
    ensures c !in s.chains[f] && f != c
  {
    hide Table, Chain, Plain, Proper, Room, CopiesAgree;
    FreeNotIn(g.kind, Table(g, s.d), f, s.chains[f], c);
    FirstIs(g.kind, Table(g, s.d), f, s.chains[f]);
  }

  lemma FirstIs(k: Kind, t: seq<nat>, f: nat, l: seq<nat>)
    requires Chain(k, t, f, l) && l != []
    ensures l[0] == f && f in l
  {
  }

  lemma OneCluster(k: Kind, t: seq<nat>, c: nat)
    requires 2 <= c < |t| <= Limit(k) && t[c] == EndMark(k)
    ensures Chain(k, t, c, [c])
  {
    assert Chain(k, t, EndMark(k), [c][1..]);
  }

  // ---------- new files ----------

  lemma NewKeepsFile(g: Geometry, s: Files, c: nat, s': Files, f: nat)
    requires Filed(g, s) && Created(g, s, c, s') && f in s.chains
    ensures f != c && s'.chains[f] == s.chains[f] && c !in s.chains[f]
    ensures FileOk(g, s'.d, f, s.chains[f]) && AllInRange(g, s.chains[f])
    ensures FileBytes(g, s'.d, s.chains[f]) == FileBytes(g, s.d, s.chains[f])
  {
    hide Table, Data, Chain, Plain, Proper, Room, CopiesAgree, FileBytes, Copies;
    FreeInNone(g, s, f, c);
    FileKept(g, s.d, s'.d, f, s.chains[f]);
  }

  lemma NewKeeps(g: Geometry, s: Files, c: nat, s': Files)
    requires Filed(g, s) && Created(g, s, c, s')
    ensures Filed(g, s')
    ensures forall f :: f in s.chains ==> SameFile(g, s, s', f)
    ensures Owned(g, s') == Owned(g, s)
  {
    hide Table, Data, Plain, Room, CopiesAgree, FileBytes;
    forall f | f in s.chains
      ensures f != c && s'.chains[f] == s.chains[f] && FileOk(g, s'.d, f, s.chains[f]) && c !in s.chains[f]
    {
      NewKeepsFile(g, s, c, s', f);
    }
    assert FileOk(g, s'.d, c, [c]) by {
      OneCluster(g.kind, Table(g, s'.d), c);
      SinglePlain(g.kind, c);
    }
    assert Filed(g, s') by {
      hide Chain, FileOk, Created;
      NewFiled(g, s, c, s');
    }
    forall f | f in s.chains ensures SameFile(g, s, s', f) {
      NewKeepsFile(g, s, c, s', f);
    }
    NewOwned(g, s, c, s');
  }

  lemma SinglePlain(k: Kind, c: nat)
    requires InOneSector(k, c)
    ensures Plain(k, [c])
  {
  }

  lemma NewFiled(g: Geometry, s: Files, c: nat, s': Files)
    requires Filed(g, s) && Sound(g, s'.d) && CopiesAgree(g, s'.d) && s'.chains == s.chains[c := [c]]
    requires FileOk(g, s'.d, c, [c])
    requires forall f :: f in s.chains ==> f != c && FileOk(g, s'.d, f, s.chains[f]) && c !in s.chains[f]
    ensures Filed(g, s')
  {
    hide FileOk, CopiesAgree, Proper, Room;
  }

  lemma NewOwned(g: Geometry, s: Files, c: nat, s': Files)
    requires Filed(g, s) && Created(g, s, c, s') && forall f :: f in s.chains ==> f != c
    ensures Owned(g, s') == Owned(g, s)
  {
    hide Table, Data, Plain, Room, CopiesAgree, FileOk, Copies;
    assert FreeClusters(Table(g, s'.d)) == FreeClusters(Table(g, s.d)) - {c};
    assert c in FreeClusters(Table(g, s.d));
    MoreFiles(s.chains, c, [c]);
  }

  lemma MoreFiles(chains: map<nat, seq<nat>>, f: nat, l: seq<nat>)
    ensures InFiles(chains[f := l]) == InFiles(chains - {f}) + Members(l)
    ensures f !in chains ==> chains - {f} == chains
    ensures f in chains ==> InFiles(chains) == InFiles(chains - {f}) + Members(chains[f])
  {
    OneFile(chains[f := l], f);
    assert chains[f := l] - {f} == chains - {f};
    if f in chains {
      OneFile(chains, f);
    }
  }

  lemma OneFile(chains: map<nat, seq<nat>>, f: nat)
    requires f in chains
    ensures InFiles(chains) == InFiles(chains - {f}) + Members(chains[f])
  {
    var rest := chains - {f};
    forall c | c in InFiles(chains) ensures c in InFiles(rest) + Members(chains[f]) {
      var h :| h in chains && c in chains[h];
      if h != f {
        assert h in rest && c in rest[h];
      }
    }
    forall c | c in InFiles(rest) + Members(chains[f]) ensures c in InFiles(chains) {
      if c in Members(chains[f]) {
        assert f in chains && c in chains[f];
      } else {
        var h :| h in rest && c in rest[h];
        assert h in chains && c in chains[h];
      }
    }
  }

  // ---------- writes ----------

  lemma WriteKeepsFile(g: Geometry, s: Files, r: Request, done: nat, l: seq<nat>, s': Files, f: nat)
    requires Filed(g, s) && r.Write? && Written(g, s, r, done, l, s') && f in s.chains && f != r.first
    ensures s'.chains[f] == s.chains[f] && Members(s.chains[f]) !! Members(l)
    ensures FileOk(g, s'.d, f, s.chains[f]) && AllInRange(g, s.chains[f])
    ensures FileBytes(g, s'.d, s.chains[f]) == FileBytes(g, s.d, s.chains[f])
  {
    hide Table, Chain, Plain, Proper, Room, CopiesAgree, FileBytes;
    var m := s.chains[f];
    var l0 := s.chains[r.first];
    assert forall c :: c in m ==> c in Members(m) && c !in l0 by {
      assert Members(m) !! Members(l0);
      forall c | c in m ensures c in Members(m) && c !in l0 {
        assert c in Members(m) && c !in Members(l0);
      }
    }
    OtherFileKept(g, s.d, s'.d, r.first, l0, l, r.offset, r.data[..done], f, m);
    forall c | c in m ensures c !in l {
      NotTaken(g.kind, Table(g, s.d), Table(g, s'.d), l0, l, f, m, c);
    }
  }

  lemma WriteKeeps(g: Geometry, s: Files, r: Request, done: nat, l: seq<nat>, s': Files)
    requires Filed(g, s) && r.Write? && Written(g, s, r, done, l, s')
    ensures Filed(g, s')
    ensures forall f :: f in s.chains && f != r.first ==> SameFile(g, s, s', f)
    ensures Owned(g, s') == Owned(g, s)
  {
    hide Table, Plain, Room, Proper, CopiesAgree, FileBytes, Chain;
    forall f | f in s.chains && f != r.first
      ensures s'.chains[f] == s.chains[f] && FileOk(g, s'.d, f, s.chains[f]) && Members(s.chains[f]) !! Members(l)
    {
      WriteKeepsFile(g, s, r, done, l, s', f);
    }
    GoodChain(g, s.d, s'.d, r.first, s.chains[r.first], l, r.offset, r.data[..done]);
    assert Filed(g, s') by {
      hide FileOk, Written, Good;
      WriteFiled(g, s, r.first, l, s');
    }
    forall f | f in s.chains && f != r.first ensures SameFile(g, s, s', f) {
      WriteKeepsFile(g, s, r, done, l, s', f);
    }
    WriteOwned(g, s, r, done, l, s');
  }

  lemma WriteFiled(g: Geometry, s: Files, first: nat, l: seq<nat>, s': Files)
    requires Filed(g, s) && Sound(g, s'.d) && CopiesAgree(g, s'.d) && s'.chains == s.chains[first := l]
    requires FileOk(g, s'.d, first, l)
    requires forall f :: f in s.chains && f != first ==>
               FileOk(g, s'.d, f, s.chains[f]) && Members(s.chains[f]) !! Members(l)
    ensures Filed(g, s')
  {
    hide FileOk, CopiesAgree, Proper, Room, Members;
  }

  lemma WriteOwned(g: Geometry, s: Files, r: Request, done: nat, l: seq<nat>, s': Files)
    requires Filed(g, s) && r.Write? && Written(g, s, r, done, l, s')
    ensures Owned(g, s') == Owned(g, s)
  {
    hide Table, Plain, Room, Proper, CopiesAgree, FileBytes, Chain;
    var t, t' := Table(g, s.d), Table(g, s'.d);
    var l0 := s.chains[r.first];
    MoreFiles(s.chains, r.first, l);
    GrewOwned(g.kind, t, t', r.first, l0, l);
  }

  /** The free clusters and those of the file that grows make up the same set. */
  lemma GrewOwned(k: Kind, t: seq<nat>, t': seq<nat>, first: nat, l0: seq<nat>, l: seq<nat>)
    requires Chain(k, t, first, l0) && Grew(t, t', l0, l) && Chain(k, t', first, l)
    ensures FreeClusters(t') + Members(l) == FreeClusters(t) + Members(l0)
  {
    hide Chain;
    PrefixElements(l0, l);
    ChainInside(k, t', first, l);
    forall c: nat | c in FreeClusters(t') || c in l ensures c in FreeClusters(t) || c in l0 {
      if c in l && c !in l0 {
        var i :| 0 <= i < |l| && l[i] == c;
      }
    }
    forall c: nat | c in FreeClusters(t) || c in l0 ensures c in FreeClusters(t') || c in l {
      if c in l0 {
        var i :| 0 <= i < |l0| && l0[i] == c;
        assert l[i] == c;
      }
    }
  }

  // ---------- deletions ----------

  lemma DeleteKeepsFile(g: Geometry, s: Files, first: nat, s': Files, f: nat)
    requires Filed(g, s) && Deleted(g, s, first, s') && f in s.chains && f != first
    ensures f in s'.chains && s'.chains[f] == s.chains[f]
    ensures FileOk(g, s'.d, f, s.chains[f]) && AllInRange(g, s.chains[f])
    ensures FileBytes(g, s'.d, s.chains[f]) == FileBytes(g, s.d, s.chains[f])
  {
    hide Table, Data, Chain, Plain, Proper, Room, CopiesAgree, FileBytes, Copies, Cut, Walkable;
    var l, m := s.chains[first], s.chains[f];
    CutChain(g.kind, Table(g, s.d), first, l, PATIENCE);
    assert Members(m) !! Members(l);
    forall c | c in m ensures c !in First(l, PATIENCE) {
      assert c in Members(m) && c !in Members(l);
    }
    FileKept(g, s.d, s'.d, f, m);
  }

  lemma DeleteKeeps(g: Geometry, s: Files, first: nat, s': Files)
    requires Filed(g, s) && Deleted(g, s, first, s')
    ensures Filed(g, s')
    ensures forall f :: f in s.chains && f != first ==> SameFile(g, s, s', f)
    ensures Owned(g, s') <= Owned(g, s)
    ensures Owned(g, s') == Owned(g, s) <==> |s.chains[first]| <= PATIENCE
  {
    hide Table, Data, Chain, Plain, Proper, Room, CopiesAgree, FileBytes, Cut, Walkable;
    forall f | f in s.chains && f != first
      ensures f in s'.chains && s'.chains[f] == s.chains[f] && FileOk(g, s'.d, f, s.chains[f])
    {
      DeleteKeepsFile(g, s, first, s', f);
    }
    assert Filed(g, s') by {
      hide FileOk, DataKept, Members;
    }
    forall f | f in s.chains && f != first ensures SameFile(g, s, s', f) {
      DeleteKeepsFile(g, s, first, s', f);
    }
    DeleteOwned(g, s, first, s');
  }

  lemma DeleteOwned(g: Geometry, s: Files, first: nat, s': Files)
    requires Filed(g, s) && Deleted(g, s, first, s')
    ensures Owned(g, s') <= Owned(g, s)
    ensures Owned(g, s') == Owned(g, s) <==> |s.chains[first]| <= PATIENCE
  {
    hide Table, Data, Chain, Plain, Proper, Room, CopiesAgree, FileBytes, Copies, Cut, Walkable, DataKept;
    var t, l := Table(g, s.d), s.chains[first];
    CutChain(g.kind, t, first, l, PATIENCE);
    ChainInside(g.kind, t, first, l);
    MoreFiles(s.chains, first, []);
    var t' := Cleared(t, First(l, PATIENCE));
    assert s.chains[first := []] - {first} == s.chains - {first};
    ClearedFree(t, First(l, PATIENCE));
    if |l| <= PATIENCE {
      FirstAll(l, PATIENCE);
    } else {
      LastLost(g, s, first);
    }
  }

  lemma ClearedFree(t: seq<nat>, l: seq<nat>)
    requires forall i :: 0 <= i < |l| ==> 2 <= l[i] < |t|
    ensures FreeClusters(Cleared(t, l)) == FreeClusters(t) + Members(l)
  {
    var t' := Cleared(t, l);
    forall c | c in Members(l) ensures c in FreeClusters(t') {
      var i :| 0 <= i < |l| && l[i] == c;
    }
  }

  /** The cluster at the bound is in no other file, and not free. */
  lemma LastLost(g: Geometry, s: Files, first: nat)
    requires Filed(g, s) && first in s.chains && |s.chains[first]| > PATIENCE
    ensures var l := s.chains[first];
            var c := l[PATIENCE];
            c in Owned(g, s) && c !in FreeClusters(Table(g, s.d)) + Members(First(l, PATIENCE)) +
                InFiles(s.chains - {first})
  {
    hide Table, Chain, Plain, Proper, Room, CopiesAgree;
    var l := s.chains[first];
    var c := l[PATIENCE];
    ChainNext(g.kind, Table(g, s.d), first, l, PATIENCE);
    ChainDistinct(g.kind, Table(g, s.d), first, l);
    assert first in s.chains && c in s.chains[first];
    forall f | f in s.chains && f != first ensures c !in s.chains[f] {
      assert c in Members(l) && Members(l) !! Members(s.chains[f]);
    }
  }

  // ---------- runs ----------

  /** Every request keeps the files apart and every file it does not name as it was; no cluster is
      lost, except behind the bound of free_chain. */
  lemma StepKeeps(g: Geometry, s: Files, r: Request, s': Files)
    requires Filed(g, s) && Step(g, s, r, s')
    ensures Filed(g, s')
    ensures forall f :: f in s.chains && !Names(r, f) ==> SameFile(g, s, s', f)
    ensures Owned(g, s') <= Owned(g, s) && (Owned(g, s') == Owned(g, s) <==> !Loses(s, r))
  {
    hide Filed, Created, Written, Deleted, Owned;
    match r
    case New =>
      if s' == s {
        Unchanged(g, s);
      } else {
        var c :| Created(g, s, c, s');
        NewKeeps(g, s, c, s');
      }
    case Write(_, _, _) =>
      var done, l :| Written(g, s, r, done, l, s');
      WriteKeeps(g, s, r, done, l, s');
    case Delete(first) =>
      DeletedNamed(g, s, first, s');
      DeleteKeeps(g, s, first, s');
  }

  lemma Unchanged(g: Geometry, s: Files)
    requires Filed(g, s)
    ensures Sound(g, s.d) && forall f :: f in s.chains ==> SameFile(g, s, s, f)
  {
    hide FileBytes, FileOk;
  }

  lemma DeletedNamed(g: Geometry, s: Files, first: nat, s': Files)
    requires Deleted(g, s, first, s')
    ensures first in s.chains
  {
  }

  /** The states of a run, before each request and after the last. */
  ghost predicate Run(g: Geometry, ss: seq<Files>, rs: seq<Request>) {
    |ss| == |rs| + 1 && forall n :: 0 <= n < |rs| ==> Step(g, ss[n], rs[n], ss[n + 1])
  }

  ghost predicate NeverNamed(rs: seq<Request>, f: nat) { forall n :: 0 <= n < |rs| ==> !Names(rs[n], f) }

  ghost predicate NothingLost(ss: seq<Files>, rs: seq<Request>)
    requires |ss| == |rs| + 1
  {
    forall n :: 0 <= n < |rs| ==> !Loses(ss[n], rs[n])
  }

  /** Over any run of new files, writes and deletions: no two files share a cluster and the copies
      of the table agree; a file that no request names keeps its chain and its bytes; and every
      cluster that was free or in a file still is, if and only if no file of more than 100 000
      clusters was deleted. */
  lemma {:induction false} EveryRun(g: Geometry, ss: seq<Files>, rs: seq<Request>)
    requires Run(g, ss, rs) && Filed(g, ss[0])
    ensures Filed(g, ss[|rs|])
    ensures forall f :: f in ss[0].chains && NeverNamed(rs, f) ==> SameFile(g, ss[0], ss[|rs|], f)
    ensures Owned(g, ss[|rs|]) <= Owned(g, ss[0])
    ensures Owned(g, ss[|rs|]) == Owned(g, ss[0]) <==> NothingLost(ss, rs)
    decreases |rs|
  {
    hide Filed, Step, SameFile, Owned, Names, Loses, Sound;
    if |rs| == 0 {
      SoundFiles(g, ss[0]);
      forall f | f in ss[0].chains ensures SameFile(g, ss[0], ss[0], f) {
        Unchanged(g, ss[0]);
      }
    } else {
      var m := |rs| - 1;
      var ss0, rs0 := ss[..m + 1], rs[..m];
      RunPrefix(g, ss, rs);
      EveryRun(g, ss0, rs0);
      assert Step(g, ss[m], rs[m], ss[m + 1]);
      StepKeeps(g, ss[m], rs[m], ss[m + 1]);
      SoundFiles(g, ss[0]);
      SoundFiles(g, ss[m]);
      SoundFiles(g, ss[m + 1]);
      forall f | f in ss[0].chains && NeverNamed(rs, f) ensures SameFile(g, ss[0], ss[m + 1], f) {
        assert NeverNamed(rs0, f) by {
          assert forall n :: 0 <= n < m ==> rs0[n] == rs[n];
        }
        SameTwice(g, ss[0], ss[m], ss[m + 1], f);
      }
      LostPrefix(ss, rs);
    }
  }

  lemma SoundFiles(g: Geometry, s: Files)
    requires Filed(g, s)
    ensures Sound(g, s.d)
  {
  }

  lemma RunPrefix(g: Geometry, ss: seq<Files>, rs: seq<Request>)
    requires Run(g, ss, rs) && |rs| > 0
    ensures Run(g, ss[..|rs|], rs[..|rs| - 1])
  {
    hide Step;
    var ss0, rs0 := ss[..|rs|], rs[..|rs| - 1];
    forall n | 0 <= n < |rs0| ensures Step(g, ss0[n], rs0[n], ss0[n + 1]) {
      assert Step(g, ss[n], rs[n], ss[n + 1]);
    }
  }

  lemma LostPrefix(ss: seq<Files>, rs: seq<Request>)
    requires |ss| == |rs| + 1 && |rs| > 0
    ensures var m := |rs| - 1;
            NothingLost(ss, rs) <==> NothingLost(ss[..m + 1], rs[..m]) && !Loses(ss[m], rs[m])
  {
    hide Loses;
    var m := |rs| - 1;
    var ss0, rs0 := ss[..m + 1], rs[..m];
    assert forall n :: 0 <= n < m ==> ss0[n] == ss[n] && rs0[n] == rs[n];
    if NothingLost(ss0, rs0) && !Loses(ss[m], rs[m]) {
      forall n | 0 <= n < |rs| ensures !Loses(ss[n], rs[n]) {
        assert n < m ==> !Loses(ss0[n], rs0[n]);
      }
    }
  }

  lemma SameTwice(g: Geometry, s: Files, s1: Files, s2: Files, f: nat)
    requires SameFile(g, s, s1, f) && (f in s1.chains ==> SameFile(g, s1, s2, f))
    ensures SameFile(g, s, s2, f)
  {
    hide FileBytes, FileOk, Owned;
  }

  // ---------- the code that carries out a request ----------

  /** What a request needs: a file that is there, and as many usable free clusters as a write
      wants or a table that covers the whole scan. */
  ghost predicate Ready(g: Geometry, s: Files, r: Request)
    requires Sound(g, s.d) && g.sectorsPerCluster > 0
  {
    match r
    case New => ScanSafe(g.kind, Table(g, s.d))
    case Write(first, offset, data) =>
      first in s.chains && (data != [] ==> Enough(g, s.d, |s.chains[first]|, Wanted(g, offset, |data|)))
    case Delete(first) => first in s.chains
  }

  /** A request carried out by the routines of the volume. */
  method Carry(v: Volume, r: Request, ghost chains: map<nat, seq<nat>>) returns (ghost chains': map<nat, seq<nat>>)
    requires Filed(v.g, Files(v.sectors, chains)) && Ready(v.g, Files(v.sectors, chains), r)
    modifies v
    ensures Step(v.g, Files(old(v.sectors), chains), r, Files(v.sectors, chains'))
    ensures Filed(v.g, Files(v.sectors, chains'))
  {
    hide Filed, Table, Good, Created, Deleted, Cut, Walkable, Room, Proper, ScanSafe, Enough, Wanted, Chain, Plain,
         Copies;
    ghost var s := Files(v.sectors, chains);
    SoundFiles(v.g, s);
    chains' := chains;
    match r {
      case New =>
        var c := NewFile(v, chains);
        if c != 0 {
          chains' := chains[c := [c]];
          assert Created(v.g, s, c, Files(v.sectors, chains'));
        }
      case Write(first, offset, data) =>
        FileParts(v.g, s, first);
        ghost var l;
        var done;
        done, l := v.WriteChain(first, offset, data, chains[first]);
        chains' := chains[first := l];
        assert Written(v.g, s, r, done, l, Files(v.sectors, chains'));
      case Delete(first) =>
        FileParts(v.g, s, first);
        CutChain(v.g.kind, v.T(), first, chains[first], PATIENCE);
        v.FreeChain(first);
        chains' := chains - {first};
        Removed(v.g, s, first, Files(v.sectors, chains'));
    }
    StepKeeps(v.g, s, r, Files(v.sectors, chains'));
  }

  lemma FileParts(g: Geometry, s: Files, f: nat)
    requires Filed(g, s) && f in s.chains
    ensures f >= 2 && s.chains[f] != [] && Chain(g.kind, Table(g, s.d), f, s.chains[f]) && Plain(g.kind, s.chains[f])
  {
    hide Table;
  }

  lemma Removed(g: Geometry, s: Files, first: nat, s': Files)
    requires Sound(g, s.d) && Sound(g, s'.d) && first in s.chains && s'.chains == s.chains - {first}
    requires Walkable(g.kind, Table(g, s.d), first, PATIENCE)
    requires Table(g, s'.d) == Cut(g.kind, Table(g, s.d), first, PATIENCE)
    requires Copies(g, s.d, s'.d) && s'.d[g.dataStart..] == s.d[g.dataStart..]
    ensures Deleted(g, s, first, s')
  {
    hide Table, Cut, Walkable, Data, Proper, Room;
    assert DataKept(g, s.d, s'.d, {}) by {
      AllDataKept(g, s.d, s'.d);
    }
  }

  lemma AllDataKept(g: Geometry, d: seq<Sector>, d': seq<Sector>)
    requires Sound(g, d) && Sound(g, d') && d'[g.dataStart..] == d[g.dataStart..]
    ensures DataKept(g, d, d', {})
  {
    hide Data, Room;
    forall c | InRange(g, c) ensures Data(g, d', c) == Data(g, d, c) {
      DataFrame(g, d, d', c);
    }
  }

  /** The new file of fat_open: a free cluster, its entry an end mark, and its sectors zero. */
  method NewFile(v: Volume, ghost chains: map<nat, seq<nat>>) returns (c: nat)
    requires v.Valid() && ScanSafe(v.g.kind, v.T())
    modifies v
    ensures v.Valid()
    ensures c == 0 ==> v.sectors == old(v.sectors) && FreeClusters(v.T()) == {}
    ensures c != 0 ==> Created(v.g, Files(old(v.sectors), chains), c, Files(v.sectors, chains[c := [c]]))
  {
    hide Table, Room, Proper, PutIn, ScanSafe, CopiesAgree, Data, ReadsZero, Usable, FreeClusters, SetEntry;
    ghost var d0 := v.sectors;
    SafeScan(v.g, v.sectors);
    c := v.AllocCluster();
    FoundInside(v.g, v.sectors, c);
    InsideSafe(v.g, v.sectors);
    SafeFind(v.g, v.sectors, c);
    if c == 0 {
      return;
    }
    UsableIs(v.g.kind, v.T(), c);
    EntryFits(v.g, c);
    v.WriteEntry(c, EndMark(v.g.kind));
    ghost var d1 := v.sectors;
    ghost var zeros := Zeros(ClusterSize(v.g));
    PutNone(v.g, d1, c, 0);
    assert zeros[0..0] == [];
    for s := 0 to v.g.sectorsPerCluster
      invariant v.Valid() && PutIn(v.g, d1, v.sectors, c, 0, zeros[0..512 * s])
    {
      ghost var d2 := v.sectors;
      assert zeros[512 * s..512 * s + 512] == Zeros(512);
      v.WriteSector(c, s, 0, Zeros(512));
      PutMore(v.g, d1, d2, v.sectors, c, 0, zeros, 0, 512 * s, 512);
    }
    Filled(v.g, chains, d0, d1, v.sectors, c);
  }

  /** The entry written and the cluster filled with zeros make the new file. */
  lemma Filled(g: Geometry, chains: map<nat, seq<nat>>, d0: seq<Sector>, d1: seq<Sector>, d: seq<Sector>, c: nat)
    requires Sound(g, d0) && Sound(g, d1) && InRange(g, c) && InOneSector(g.kind, c) && Table(g, d0)[c] == 0
    requires Table(g, d1) == Table(g, d0)[c := EndMark(g.kind)]
    requires Copies(g, d0, d1) && d1[g.dataStart..] == d0[g.dataStart..]
    requires PutIn(g, d1, d, c, 0, Zeros(ClusterSize(g))[0..ClusterSize(g)])
    ensures Created(g, Files(d0, chains), c, Files(d, chains[c := [c]]))
  {
    hide Table, Data, Room, Proper, InOneSector, CopiesAgree;
    AllDataKept(g, d0, d1);
    TableFrame(g, d1, d);
    var zeros := Zeros(ClusterSize(g));
    assert zeros[0..ClusterSize(g)] == zeros;
    assert Overwrite(Data(g, d1, c), 0, zeros) == zeros;
    assert DataKept(g, d0, d, {c});
  }
}
