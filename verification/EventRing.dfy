/** The ring that carries input events from interrupt handlers to their reader: as calls that
    run alone, and split into its loads and stores with one producer and one consumer
    interleaved in any order. */
module EventRing {
  import opened Options

  const SIZE: nat := 512

  function Slot(k: nat): (r: nat)
    ensures r < SIZE
  {
    k % SIZE
  }

  /** Positions less than a turn apart lie in different slots. */
  lemma SlotsApart(a: nat, b: nat)
    requires a < b < a + SIZE
    ensures Slot(a) != Slot(b)
  {
  }

  lemma SlotNext(k: nat)
    ensures (Slot(k) + 1) % SIZE == Slot(k + 1)
  {
  }

  // ---------- interleaving ----------

  /** Where the producer stands in push, with the values it has loaded. */
  datatype Producer<E> =
    PIdle | PHasWrite(e: E, w: nat) | PHasBoth(e: E, w: nat, r: nat) | PStoring(e: E, w: nat) | PStored(e: E, w: nat)

  /** Where the consumer stands in pop. */
  datatype Consumer<E> = CIdle | CHasRead(r: nat) | CHasBoth(r: nat, w: nat) | CLoading(r: nat) | CLoaded(r: nat, e: E)

  /** The ring and its two parties; then the history: events accepted and popped, how many have
      been published, and how far each party had seen the other at its last look. */
  datatype System<E> = System(buf: seq<E>, read: nat, write: nat, p: Producer<E>, c: Consumer<E>,
                              accepted: seq<E>, popped: seq<E>, published: nat, seenPopped: nat, seenPublished: nat)

  /** One load or store. While the producer stores an event the slot may hold anything. */
  datatype Move<E> =
    | PushStart(e: E) | PushLook | PushDecide(junk: E) | PushStore | PushPublish
    | PopStart | PopLook | PopDecide | PopLoad | PopFinish

  ghost predicate Enabled<E>(s: System<E>, m: Move<E>) {
    match m
    case PushStart(e) => s.p.PIdle?
    case PushLook => s.p.PHasWrite?
    case PushDecide(junk) => s.p.PHasBoth?
    case PushStore => s.p.PStoring?
    case PushPublish => s.p.PStored?
    case PopStart => s.c.CIdle?
    case PopLook => s.c.CHasRead?
    case PopDecide => s.c.CHasBoth?
    case PopLoad => s.c.CLoading?
    case PopFinish => s.c.CLoaded?
  }

  /** The ring is full as the producer sees it. */
  predicate LooksFull(w: nat, r: nat) { (w + 1) % SIZE == r }

  ghost predicate InBounds<E>(s: System<E>) {
    && |s.buf| == SIZE && s.read < SIZE && s.write < SIZE
    && (s.p.PHasWrite? ==> s.p.w < SIZE) && (s.p.PHasBoth? ==> s.p.w < SIZE)
    && (s.p.PStoring? ==> s.p.w < SIZE) && (s.p.PStored? ==> s.p.w < SIZE)
    && (s.c.CHasRead? ==> s.c.r < SIZE) && (s.c.CHasBoth? ==> s.c.r < SIZE)
    && (s.c.CLoading? ==> s.c.r < SIZE) && (s.c.CLoaded? ==> s.c.r < SIZE)
  }

  ghost function Next<E>(s: System<E>, m: Move<E>): System<E>
    requires InBounds(s) && Enabled(s, m)
  {
    match m
    case PushStart(e) => s.(p := PHasWrite(e, s.write))
    case PushLook => s.(p := PHasBoth(s.p.e, s.p.w, s.read), seenPopped := |s.popped|)
    case PushDecide(junk) =>
      if LooksFull(s.p.w, s.p.r) then s.(p := PIdle)
      else s.(p := PStoring(s.p.e, s.p.w), buf := s.buf[s.p.w := junk], accepted := s.accepted + [s.p.e])
    case PushStore => s.(p := PStored(s.p.e, s.p.w), buf := s.buf[s.p.w := s.p.e])
    case PushPublish => s.(p := PIdle, write := (s.p.w + 1) % SIZE, published := s.published + 1)
    case PopStart => s.(c := CHasRead(s.read))
    case PopLook => s.(c := CHasBoth(s.c.r, s.write), seenPublished := s.published)
    case PopDecide => if s.c.r == s.c.w then s.(c := CIdle) else s.(c := CLoading(s.c.r))
    case PopLoad => s.(c := CLoaded(s.c.r, s.buf[s.c.r]))
    case PopFinish => s.(c := CIdle, read := (s.c.r + 1) % SIZE, popped := s.popped + [s.c.e])
  }

  // ---------- the invariant ----------

  /** The producer's view: it alone moves the write index, and what it saw of the read index is
      an earlier value of it. */
  ghost predicate ProducerOk<E>(s: System<E>)
    requires InBounds(s) && |s.popped| <= s.published <= |s.accepted|
  {
    && (s.p.PIdle? || s.p.PHasWrite? || s.p.PHasBoth? ==> |s.accepted| == s.published)
    && (s.p.PHasWrite? ==> s.p.w == s.write)
    && (s.p.PHasBoth? ==>
        s.p.w == s.write && s.p.r == Slot(s.seenPopped) && s.seenPopped <= |s.popped| &&
        s.published - s.seenPopped < SIZE)
    && (s.p.PStoring? || s.p.PStored? ==>
          && |s.accepted| == s.published + 1 && s.p.w == s.write
          && s.published + 1 - |s.popped| < SIZE && s.accepted[s.published] == s.p.e)
    && (s.p.PStored? ==> s.buf[s.p.w] == s.p.e)
  }

  ghost predicate ConsumerOk<E>(s: System<E>)
    requires InBounds(s) && |s.popped| <= s.published <= |s.accepted|
  {
    && (s.c.CHasRead? || s.c.CHasBoth? || s.c.CLoading? || s.c.CLoaded? ==> s.c.r == s.read)
    && (s.c.CHasBoth? ==> s.c.w == Slot(s.seenPublished) && |s.popped| <= s.seenPublished <= s.published)
    && (s.c.CLoading? || s.c.CLoaded? ==> |s.popped| < s.published)
    && (s.c.CLoaded? ==> s.c.e == s.accepted[|s.popped|])
  }

  /** The events between the two indices are the accepted ones not yet popped. */
  ghost predicate Contents<E>(s: System<E>)
    requires InBounds(s) && |s.popped| <= s.published <= |s.accepted|
  {
    forall k :: |s.popped| <= k < s.published ==> s.buf[Slot(k)] == s.accepted[k]
  }

  ghost predicate Inv<E>(s: System<E>) {
    && InBounds(s)
    && |s.popped| <= s.published <= |s.accepted| <= s.published + 1 && s.published - |s.popped| < SIZE
    && s.read == Slot(|s.popped|) && s.write == Slot(s.published)
    && s.popped <= s.accepted
    && ProducerOk(s) && ConsumerOk(s) && Contents(s)
  }

  lemma ProducerKeeps<E>(s: System<E>, m: Move<E>)
    requires Inv(s) && Enabled(s, m) && (m.PushStart? || m.PushLook? || m.PushDecide? || m.PushStore? || m.PushPublish?)
    ensures Inv(Next(s, m))
  {
    hide Slot;
    var t := Next(s, m);
    match m
    case PushStart(e) =>
    case PushLook =>
    case PushDecide(junk) =>
      NotFull(s);
      if !LooksFull(s.p.w, s.p.r) {
        forall k | |s.popped| <= k < s.published ensures Slot(k) != s.p.w {
          SlotsApart(k, s.published);
        }
      }
    case PushStore =>
      forall k | |s.popped| <= k < s.published ensures Slot(k) != s.p.w {
        SlotsApart(k, s.published);
      }
    case PushPublish =>
      SlotNext(s.published);
  }

  /** If the producer does not see a full ring, there is room. */
  lemma NotFull<E>(s: System<E>)
    requires Inv(s) && s.p.PHasBoth?
    ensures LooksFull(s.p.w, s.p.r) <==> s.published + 1 == s.seenPopped + SIZE
    ensures !LooksFull(s.p.w, s.p.r) ==> s.published + 1 - |s.popped| < SIZE
  {
    hide Contents, Slot;
    SlotNext(s.published);
    SlotTurn(s.seenPopped);
    if s.published + 1 < s.seenPopped + SIZE {
      if s.seenPopped < s.published + 1 {
        SlotsApart(s.seenPopped, s.published + 1);
      }
    }
  }

  lemma SlotTurn(k: nat)
    ensures Slot(k + SIZE) == Slot(k)
  {
  }

  lemma ConsumerKeeps<E>(s: System<E>, m: Move<E>)
    requires Inv(s) && Enabled(s, m) && (m.PopStart? || m.PopLook? || m.PopDecide? || m.PopLoad? || m.PopFinish?)
    ensures Inv(Next(s, m))
  {
    hide Slot;
    match m
    case PopStart =>
    case PopLook =>
    case PopDecide =>
    case PopLoad =>
    case PopFinish =>
      SlotNext(|s.popped|);
      assert s.popped + [s.c.e] <= s.accepted;
  }

  lemma StepKeeps<E>(s: System<E>, m: Move<E>)
    requires Inv(s) && Enabled(s, m)
    ensures Inv(Next(s, m))
  {
    hide Inv, Next;
    if m.PushStart? || m.PushLook? || m.PushDecide? || m.PushStore? || m.PushPublish? {
      ProducerKeeps(s, m);
    } else {
      ConsumerKeeps(s, m);
    }
  }

  // ---------- runs ----------

  ghost predicate PossibleRun<E>(s: System<E>, ms: seq<Move<E>>)
    decreases |ms|
  {
    ms == [] || (InBounds(s) && Enabled(s, ms[0]) && PossibleRun(Next(s, ms[0]), ms[1..]))
  }

  ghost function RunOf<E>(s: System<E>, ms: seq<Move<E>>): System<E>
    requires PossibleRun(s, ms)
    decreases |ms|
  {
    if ms == [] then s else RunOf(Next(s, ms[0]), ms[1..])
  }

  /** An empty ring with both parties idle. */
  ghost predicate Initial<E>(s: System<E>) {
    |s.buf| == SIZE && s.read == 0 && s.write == 0 && s.p == PIdle && s.c == CIdle && s.accepted == [] &&
        s.popped == [] && s.published == 0
  }

  lemma {:induction false} RunKeeps<E>(s: System<E>, ms: seq<Move<E>>)
    requires Inv(s) && PossibleRun(s, ms)
    ensures Inv(RunOf(s, ms))
    decreases |ms|
  {
    hide Inv, Next, Enabled, InBounds;
    if ms != [] {
      StepKeeps(s, ms[0]);
      RunKeeps(Next(s, ms[0]), ms[1..]);
    }
  }

  /** For every interleaving: what was popped is a prefix of what was accepted, in order, and no
      slot is read while it is being overwritten. */
  lemma EveryInterleaving<E>(s: System<E>, ms: seq<Move<E>>)
    requires Initial(s) && PossibleRun(s, ms)
    ensures var t := RunOf(s, ms);
            t.popped <= t.accepted && !(t.p.PStoring? && t.c.CLoading? && t.p.w == t.c.r)
  {
    hide RunOf, Next, PossibleRun;
    RunKeeps(s, ms);
    NoTornRead(RunOf(s, ms));
  }

  lemma NoTornRead<E>(s: System<E>)
    requires Inv(s)
    ensures s.popped <= s.accepted && !(s.p.PStoring? && s.c.CLoading? && s.p.w == s.c.r)
  {
    hide Slot, Contents;
    if s.p.PStoring? && s.c.CLoading? {
      SlotsApart(|s.popped|, s.published);
    }
  }

  /** An event is dropped only when the ring held 511 events at the producer's look at the read
      index, and pop reports an empty ring only when it was empty at the consumer's look. */
  lemma RefusalsAreRight<E>(s: System<E>)
    requires Inv(s)
    ensures s.p.PHasBoth? ==> (LooksFull(s.p.w, s.p.r) <==> s.published - s.seenPopped == 511)
    ensures s.c.CHasBoth? ==> (s.c.r == s.c.w <==> s.seenPublished == |s.popped|)
  {
    hide Contents, Slot;
    if s.p.PHasBoth? {
      NotFull(s);
    }
    if s.c.CHasBoth? && |s.popped| < s.seenPublished {
      SlotsApart(|s.popped|, s.seenPublished);
    }
  }

  // ---------- calls that run alone ----------

  /** Where entry k of the queue lies when the oldest is at r. */
  function Position(r: nat, k: nat): (i: nat)
    ensures i < SIZE
  {
    (r + k) % SIZE
  }

  lemma AsSlot(r: nat, k: nat)
    ensures Position(r, k) == Slot(r + k)
  {
  }

  lemma PositionsApart(r: nat, j: nat, k: nat)
    requires j < k < j + SIZE
    ensures Position(r, j) != Position(r, k)
  {
    SlotsApart(r + j, r + k);
  }

  lemma PositionNext(r: nat, k: nat)
    requires r < SIZE
    ensures Position(Position(r, 1), k) == Position(r, k + 1) && Position(r, 0) == r &&
            (Position(r, k) + 1) % SIZE == Position(r, k + 1)
  {
    hide Slot, Position;
    AsSlot(r, k);
    AsSlot(r, k + 1);
    AsSlot(r, 0);
    AsSlot(r, 1);
    AsSlot(Position(r, 1), k);
    SlotNext(r + k);
    SmallSlot(r);
    if r == SIZE - 1 {
      SlotTurn(0);
      SmallSlot(0);
      SlotTurn(k);
      assert Position(r, k + 1) == Slot(k + SIZE) && Position(r, 1) == Slot(0 + SIZE);
    } else {
      SmallSlot(r + 1);
      assert Position(r, 1) == r + 1;
    }
  }

  lemma SmallSlot(k: nat)
    requires k < SIZE
    ensures Slot(k) == k
  {
  }

  class Ring<E(0)> {
    var buf: array<E>
    var read: nat
    var write: nat
    /** The queued events, oldest first. */
    ghost var q: seq<E>

    ghost predicate Valid()
      reads this, buf
    {
      && buf.Length == SIZE && read < SIZE && |q| < SIZE && write == Position(read, |q|)
      && forall k :: 0 <= k < |q| ==> buf[Position(read, k)] == q[k]
    }

    constructor ()
      ensures Valid() && fresh(buf) && q == []
    {
      buf := new E[SIZE];
      read, write := 0, 0;
      q := [];
    }

    /** push: the event joins the queue, unless 511 are waiting. */
    method Push(e: E)
      requires Valid()
      modifies this`write, this`q, buf
      ensures Valid() && q == if |old(q)| == 511 then old(q) else old(q) + [e]
    {
      hide Position;
      var w := write;
      var r := read;
      var next := (w + 1) % SIZE;
      PositionNext(r, |q|);
      PositionNext(r, 0);
      FullTurn(r);
      if |q| + 1 < SIZE {
        PositionsApart(r, 0, |q| + 1);
      }
      if next == r {
        return;
      }
      forall k | 0 <= k < |q| ensures Position(r, k) != w {
        PositionsApart(r, k, |q|);
      }
      buf[w] := e;
      write := next;
      q := q + [e];
    }

    /** pop: the oldest event leaves. */
    method Pop() returns (e: Option<E>)
      requires Valid()
      modifies this`read, this`q
      ensures Valid()
      ensures if old(q) == [] then e == None && q == [] else e == Some(old(q)[0]) && q == old(q)[1..]
    {
      hide Position;
      var r := read;
      var w := write;
      PositionNext(r, 0);
      if |q| > 0 {
        PositionsApart(r, 0, |q|);
      }
      if r == w {
        return None;
      }
      assert buf[Position(r, 0)] == q[0];
      e := Some(buf[r]);
      forall k | 0 <= k < |q| ensures k > 0 ==> Position(Position(r, 1), k - 1) == Position(r, k) {
        if k > 0 {
          PositionNext(r, k - 1);
        }
      }
      PositionNext(r, |q| - 1);
      read := (r + 1) % SIZE;
      q := q[1..];
    }

    /** has_events */
    method HasEvents() returns (b: bool)
      requires Valid()
      ensures b <==> q != []
    {
      hide Position;
      PositionNext(read, 0);
      if |q| > 0 {
        PositionsApart(read, 0, |q|);
      }
      b := read != write;
    }
  }

  lemma FullTurn(r: nat)
    requires r < SIZE
    ensures Position(r, SIZE) == r
  {
  }
}
