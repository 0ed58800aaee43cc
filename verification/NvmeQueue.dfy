/** The I/O queue pair of the NVMe driver, with the driver and the device as two parties whose
    steps interleave in any order: section 4.6 of the NVM Express Base Specification 1.4. */
module NvmeQueue {
  import opened Options

  /** QD */
  const DEPTH: nat := 64

  /** A submission entry: its command identifier and the rest of its sixteen words. */
  datatype Command = Command(cid: nat, body: int)

  /** The last word of a completion entry. */
  datatype Entry = Entry(cid: nat, phase: nat, status: nat)

  /** A completion that the device has posted, and which command it is for. */
  datatype Posted = Posted(index: nat, cid: nat, status: nat)

  /** The two rings in memory and the driver's indices; the device's progress; the history of
      commands sent, completions posted and completions consumed. base is the identifier counter
      when the queue was created. */
  datatype System = System(sq: seq<Command>, cq: seq<Entry>, tail: nat, doorbell: nat, head: nat, phase: nat,
                           counter: nat,
                           fetched: nat, working: set<nat>, base: nat, sent: seq<Command>, posted: seq<Posted>,
                           consumed: nat)

  datatype Move =
    | Submit(body: int)
    | Fetch
    | Complete(index: nat, status: nat)
    | Poll

  function Ring(k: nat): (r: nat)
    ensures r < DEPTH
  {
    k % DEPTH
  }

  /** The phase bit of the k-th completion: 1 on the first pass through the ring, then in turn. */
  function Pass(k: nat): (p: nat)
    ensures p == 0 || p == 1
  {
    if k / DEPTH % 2 == 0 then 1 else 0
  }

  function Cid(k: nat): (c: nat)
    ensures c < 65536
  {
    k % 65536
  }

  ghost predicate InBounds(s: System) {
    |s.sq| == DEPTH && |s.cq| == DEPTH && s.tail < DEPTH && s.head < DEPTH && (s.phase == 0 || s.phase == 1)
  }

  /** Submissions keep fewer than 64 commands outstanding; the device may fetch what the doorbell
      announces and complete, in any order and after any delay, what it works on. */
  predicate Enabled(s: System, m: Move) {
    match m
    case Submit(body) => |s.sent| + 1 < s.consumed + DEPTH
    case Fetch => s.fetched < |s.sent|
    case Complete(index, status) => index in s.working && index < |s.sent|
    case Poll => true
  }

  /** The entry at the head carries the phase the driver waits for. */
  predicate LooksNew(e: Entry, phase: nat) { e.phase == phase }

  function Next(s: System, m: Move): System
    requires InBounds(s) && Enabled(s, m)
  {
    match m
    case Submit(body) =>
      var cmd := Command(s.counter, body);
      var newTail := (s.tail + 1) % DEPTH;
      s.(sq := s.sq[s.tail := cmd], tail := newTail, doorbell := newTail, counter := (s.counter + 1) % 65536,
         sent := s.sent + [cmd])
    case Fetch => s.(fetched := s.fetched + 1, working := s.working + {s.fetched})
    case Complete(index, status) =>
      var k := |s.posted|;
      s.(cq := s.cq[Ring(k) := Entry(s.sent[index].cid, Pass(k), status)], working := s.working - {index},
         posted := s.posted + [Posted(index, s.sent[index].cid, status)])
    case Poll =>
      if LooksNew(s.cq[s.head], s.phase) then
        var newHead := (s.head + 1) % DEPTH;
        s.(head := newHead, phase := if newHead == 0 then 1 - s.phase else s.phase, consumed := s.consumed + 1)
      else s
  }

  // ---------- arithmetic of the rings ----------

  lemma RingNext(k: nat)
    ensures (Ring(k) + 1) % DEPTH == Ring(k + 1)
    ensures Ring(k + 1) == 0 ==> Pass(k + 1) == 1 - Pass(k)
    ensures Ring(k + 1) != 0 ==> Pass(k + 1) == Pass(k)
  {
    var q, r := k / DEPTH, k % DEPTH;
    if r == DEPTH - 1 {
      assert k + 1 == DEPTH * (q + 1);
      Flips(q);
    } else {
      assert k + 1 == DEPTH * q + (r + 1);
    }
  }

  lemma Flips(q: nat)
    ensures (q + 1) % 2 == 1 - q % 2
  {
  }

  /** One turn back lies the same slot with the other phase. */
  lemma RingTurn(k: nat)
    ensures Ring(k + DEPTH) == Ring(k) && Pass(k + DEPTH) == 1 - Pass(k)
  {
    assert (k + DEPTH) / DEPTH == k / DEPTH + 1;
    Flips(k / DEPTH);
  }

  lemma RingApart(a: nat, b: nat)
    requires a < b < a + DEPTH
    ensures Ring(a) != Ring(b)
  {
  }

  lemma FirstPass(k: nat)
    requires k < DEPTH
    ensures Ring(k) == k && Pass(k) == 1
  {
  }

  lemma CidNext(k: nat)
    ensures (Cid(k) + 1) % 65536 == Cid(k + 1)
  {
  }

  // ---------- the invariant ----------

  /** Slot i of the completion ring after n completions: the last one posted there, or an entry
      of phase 0 that was never written. */
  ghost predicate SlotHolds(s: System, k: nat)
    requires |s.cq| == DEPTH && k < |s.posted|
  {
    s.cq[Ring(k)] == Entry(s.posted[k].cid, Pass(k), s.posted[k].status)
  }

  ghost predicate Completions(s: System)
    requires |s.cq| == DEPTH
  {
    && (forall k :: 0 <= k < |s.posted| && |s.posted| <= k + DEPTH ==> SlotHolds(s, k))
    && (forall i :: |s.posted| <= i < DEPTH ==> s.cq[i].phase == 0)
  }

  ghost predicate Submissions(s: System)
    requires |s.sq| == DEPTH
  {
    && s.tail == Ring(|s.sent|) && s.doorbell == s.tail && s.counter == Cid(s.base + |s.sent|)
    && (forall i :: 0 <= i < |s.sent| ==> s.sent[i].cid == Cid(s.base + i))
    && (forall i :: s.fetched <= i < |s.sent| ==> s.sq[Ring(i)] == s.sent[i])
  }

  ghost predicate Device(s: System) {
    && s.fetched <= |s.sent| && |s.working| + |s.posted| == s.fetched
    && (forall i :: i in s.working ==> i < s.fetched)
    && (forall k :: 0 <= k < |s.posted| ==> s.posted[k].index < s.fetched && s.posted[k].index !in s.working
                                             && s.posted[k].cid == s.sent[s.posted[k].index].cid)
    && (forall j, k :: 0 <= j < k < |s.posted| ==> s.posted[j].index != s.posted[k].index)
  }

  /** After k completions consumed the head is k modulo 64 and the phase that of pass k / 64. */
  ghost predicate Inv(s: System) {
    && InBounds(s) && Submissions(s) && Device(s) && Completions(s)
    && s.consumed <= |s.posted| && |s.sent| < s.consumed + DEPTH
    && s.head == Ring(s.consumed) && s.phase == Pass(s.consumed)
  }

  /** The driver takes the entry at its head exactly when the device has posted one it has not
      consumed: a stale entry never passes for a new one. */
  lemma NewExactly(s: System)
    requires Inv(s)
    ensures LooksNew(s.cq[s.head], s.phase) <==> s.consumed < |s.posted|
    ensures s.consumed < |s.posted| ==>
            s.cq[s.head].cid == s.posted[s.consumed].cid &&
            s.cq[s.head].status == s.posted[s.consumed].status
  {
    hide Ring, Pass;
    if s.consumed < |s.posted| {
      assert SlotHolds(s, s.consumed);
    } else if s.consumed < DEPTH {
      FirstPass(s.consumed);
    } else {
      var k := s.consumed - DEPTH;
      RingTurn(k);
      assert SlotHolds(s, k);
    }
  }

  lemma SubmitKeeps(s: System, body: int)
    requires Inv(s) && Enabled(s, Submit(body))
    ensures Inv(Next(s, Submit(body)))
  {
    hide Ring, Pass, Cid, Completions;
    var t := Next(s, Submit(body));
    RingNext(|s.sent|);
    CidNext(s.base + |s.sent|);
    forall i | s.fetched <= i < |t.sent| ensures t.sq[Ring(i)] == t.sent[i] {
      if i < |s.sent| {
        RingApart(i, |s.sent|);
      }
    }
    SameCompletions(s, t);
  }

  lemma SameCompletions(s: System, t: System)
    requires |s.cq| == DEPTH && Completions(s) && t.cq == s.cq && t.posted == s.posted
    ensures Completions(t)
  {
    hide Ring, Pass;
    forall k | 0 <= k < |t.posted| && |t.posted| <= k + DEPTH ensures SlotHolds(t, k) {
      assert SlotHolds(s, k);
    }
  }

  lemma FetchKeeps(s: System)
    requires Inv(s) && Enabled(s, Fetch)
    ensures Inv(Next(s, Fetch)) && s.sq[Ring(s.fetched)] == s.sent[s.fetched]
  {
    hide Ring, Pass, Cid, Completions;
    SameCompletions(s, Next(s, Fetch));
    assert s.fetched !in s.working;
  }

  lemma CompleteKeeps(s: System, index: nat, status: nat)
    requires Inv(s) && Enabled(s, Complete(index, status))
    ensures Inv(Next(s, Complete(index, status)))
  {
    hide Ring, Pass, Cid;
    var t := Next(s, Complete(index, status));
    var n := |s.posted|;
    assert |s.working| >= 1;
    forall k | 0 <= k < |t.posted| && |t.posted| <= k + DEPTH ensures SlotHolds(t, k) {
      if k < n {
        assert SlotHolds(s, k);
        RingApart(k, n);
      }
    }
    forall i | n + 1 <= i < DEPTH ensures t.cq[i].phase == 0 {
      FirstPass(n);
    }
  }

  lemma PollKeeps(s: System)
    requires Inv(s)
    ensures Inv(Next(s, Poll))
  {
    hide Ring, Pass, Cid, Completions, Submissions, Device;
    NewExactly(s);
    RingNext(s.consumed);
    var t := Next(s, Poll);
    SameCompletions(s, t);
    SameParties(s, t);
  }

  lemma SameParties(s: System, t: System)
    requires |s.sq| == DEPTH && Submissions(s) && Device(s)
    requires t == s.(head := t.head, phase := t.phase, consumed := t.consumed)
    ensures Submissions(t) && Device(t)
  {
    hide Ring, Cid;
  }

  lemma StepKeeps(s: System, m: Move)
    requires Inv(s) && Enabled(s, m)
    ensures Inv(Next(s, m))
  {
    hide Inv, Next;
    match m
    case Submit(body) => SubmitKeeps(s, body);
    case Fetch => FetchKeeps(s);
    case Complete(index, status) => CompleteKeeps(s, index, status);
    case Poll => PollKeeps(s);
  }

  // ---------- runs ----------

  /** A fresh queue pair: a zeroed completion ring, and the driver waiting for phase 1. */
  ghost predicate Initial(s: System) {
    && InBounds(s) && (forall i :: 0 <= i < DEPTH ==> s.cq[i].phase == 0)
    && s.tail == 0 && s.doorbell == 0 && s.head == 0 && s.phase == 1 && s.counter == Cid(s.base)
    && s.fetched == 0 && s.working == {} && s.sent == [] && s.posted == [] && s.consumed == 0
  }

  ghost predicate PossibleRun(s: System, ms: seq<Move>)
    decreases |ms|
  {
    ms == [] || (InBounds(s) && Enabled(s, ms[0]) && PossibleRun(Next(s, ms[0]), ms[1..]))
  }

  ghost function RunOf(s: System, ms: seq<Move>): System
    requires PossibleRun(s, ms)
    decreases |ms|
  {
    if ms == [] then s else RunOf(Next(s, ms[0]), ms[1..])
  }

  lemma {:induction false} RunKeeps(s: System, ms: seq<Move>)
    requires Inv(s) && PossibleRun(s, ms)
    ensures Inv(RunOf(s, ms))
    decreases |ms|
  {
    hide Inv, Next, Enabled, InBounds;
    if ms != [] {
      StepKeeps(s, ms[0]);
      RunKeeps(Next(s, ms[0]), ms[1..]);
    }
  }

  /** Over any number of commands and any device delay: after k completions consumed the head is
      k modulo 64, the phase has flipped on each pass, and an entry is taken exactly when it is new. */
  lemma EveryRun(s: System, ms: seq<Move>)
    requires Initial(s) && PossibleRun(s, ms)
    ensures var t := RunOf(s, ms);
            Inv(t) && t.head == t.consumed % 64 && t.phase == (if t.consumed / 64 % 2 == 0 then 1 else 0) &&
            (LooksNew(t.cq[t.head], t.phase) <==> t.consumed < |t.posted|)
  {
    hide RunOf, Next, PossibleRun;
    FirstPass(0);
    RunKeeps(s, ms);
    NewExactly(RunOf(s, ms));
  }

  // ---------- waiting for a completion ----------

  /** The queue pair in memory with the driver's variables, the device's progress and the history. */
  class IoQueue {
    var sq: seq<Command>
    var cq: seq<Entry>
    var tail: nat
    var doorbell: nat
    var head: nat
    var phase: nat
    var counter: nat
    var fetched: nat
    var working: set<nat>
    var base: nat
    var sent: seq<Command>
    var posted: seq<Posted>
    var consumed: nat

    function View(): System
      reads this
    {
      System(sq, cq, tail, doorbell, head, phase, counter, fetched, working, base, sent, posted, consumed)
    }

    ghost predicate Valid()
      reads this
    {
      Inv(View())
    }

    constructor (base: nat)
      ensures Initial(View()) && Valid()
    {
      sq := seq(DEPTH, _ => Command(0, 0));
      cq := seq(DEPTH, _ => Entry(0, 0, 0));
      tail, doorbell, head, phase, counter := 0, 0, 0, 1, Cid(base);
      fetched, working := 0, {};
      this.base := base;
      sent, posted, consumed := [], [], 0;
      new;
      FirstPass(0);
    }

    /** next_cid and io_send: the command goes to the tail slot and the doorbell announces it. */
    method IoSend(body: int) returns (cid: nat)
      requires Valid() && |sent| + 1 < consumed + DEPTH
      modifies this
      ensures Valid() && View() == Next(old(View()), Submit(body)) && cid == Cid(base + |old(sent)|) &&
              sent == old(sent) + [Command(cid, body)]
    {
      hide Device, Completions, Pass, Ring, Cid;
      SubmitKeeps(View(), body);
      cid := counter;
      counter := (counter + 1) % 65536;
      sq := sq[tail := Command(cid, body)];
      var newTail := (tail + 1) % DEPTH;
      tail := newTail;
      doorbell := newTail;
      sent := sent + [Command(cid, body)];
    }

    /** One look at the completion ring by io_wait: the answer, if an entry is there. */
    method PollOnce(cid: nat) returns (answer: Option<bool>)
      requires Valid()
      modifies this
      ensures Valid() && View() == Next(old(View()), Poll) && sent == old(sent) && posted == old(posted)
      ensures answer.Some? <==> old(consumed) < |posted|
      ensures answer.Some? ==>
              consumed == old(consumed) + 1 &&
              (answer.value <==> posted[old(consumed)].status == 0 && posted[old(consumed)].cid == cid)
      ensures answer.None? ==> consumed == old(consumed)
    {
      hide Submissions, Device, Completions, Pass, Ring;
      PollKeeps(View());
      NewExactly(View());
      var entry := cq[head];
      if entry.phase == phase {
        var newHead := (head + 1) % DEPTH;
        head := newHead;
        if newHead == 0 {
          phase := if phase == 0 then 1 else 0;
        }
        consumed := consumed + 1;
        answer := Some(entry.status == 0 && entry.cid == cid);
      } else {
        answer := None;
      }
    }

    /** The device's moves between two looks. */
    method DeviceMoves(ms: seq<Move>)
      requires Valid()
      modifies this
      ensures Valid() && View() == Moved(old(View()), ms)
      ensures consumed == old(consumed) && sent == old(sent) && old(posted) <= posted
    {
      hide Inv, Enabled, Next;
      for n := 0 to |ms|
        invariant Valid() && View() == Moved(old(View()), ms[..n])
      {
        MovedNext(old(View()), ms, n);
        if (ms[n].Fetch? || ms[n].Complete?) && Enabled(View(), ms[n]) {
          StepKeeps(View(), ms[n]);
          InvBounds(View());
          var t := Next(View(), ms[n]);
          DeviceOnly(View(), ms[n]);
          cq, fetched, working, posted := t.cq, t.fetched, t.working, t.posted;
          assert View() == t;
        }
      }
      assert ms[..|ms|] == ms;
      MovedKeeps(old(View()), ms);
    }

    /** io_wait: up to a million looks, the device moving before each of them. It consumes a
        completion exactly when one has come by the last look, and reports success only for a zero
        status and the identifier given. */
    method IoWait(cid: nat, device: seq<seq<Move>>) returns (ok: bool)
      requires Valid()
      modifies this
      ensures Valid() && sent == old(sent) && old(posted) <= posted
      ensures var looks := if |device| < 1_000_000 then |device| else 1_000_000;
              consumed == if |Rounds(old(View()), device[..looks]).posted| > old(consumed) && looks > 0
                          then old(consumed) + 1 else old(consumed)
      ensures consumed > old(consumed) ==> old(consumed) < |posted|
      ensures ok <==>
              consumed == old(consumed) + 1 && posted[old(consumed)].cid == cid &&
              posted[old(consumed)].status == 0
    {
      hide Inv, Next, Moved, Rounds;
      ghost var s := View();
      ghost var looks := if |device| < 1_000_000 then |device| else 1_000_000;
      var n := 0;
      NoRounds(s, device);
      while n < |device| && n < 1_000_000
        invariant 0 <= n <= looks
        invariant Valid() && sent == old(sent) && old(posted) <= posted && consumed == old(consumed)
        invariant View() == Rounds(s, device[..n]) && (n > 0 ==> consumed >= |posted|)
      {
        RoundsNext(s, device, n);
        DeviceMoves(device[n]);
        ghost var before := View();
        var answer := PollOnce(cid);
        if answer.Some? {
          PostedGrows(s, device, n + 1, looks);
          return answer.value;
        }
        IdlePoll(before);
        n := n + 1;
      }
      return false;
    }
  }

  // ---------- what the device does while the driver waits ----------

  /** The device moves by itself: it fetches and completes. */
  ghost function Moved(s: System, ms: seq<Move>): System {
    if ms == [] then s
    else
      var t, m := Moved(s, ms[..|ms| - 1]), ms[|ms| - 1];
      if (m.Fetch? || m.Complete?) && InBounds(t) && Enabled(t, m) then Next(t, m) else t
  }

  /** One round of moves before each look. */
  ghost function Rounds(s: System, device: seq<seq<Move>>): System {
    if device == [] then s else Moved(Rounds(s, device[..|device| - 1]), device[|device| - 1])
  }

  lemma MovedNext(s: System, ms: seq<Move>, n: nat)
    requires n < |ms| && Inv(Moved(s, ms[..n]))
    ensures var t := Moved(s, ms[..n]);
            InBounds(t) && Moved(s, ms[..n + 1]) ==
            if (ms[n].Fetch? || ms[n].Complete?) && Enabled(t, ms[n]) then Next(t, ms[n]) else t
  {
    hide Inv, Enabled, Next;
    InvBounds(Moved(s, ms[..n]));
    assert ms[..n + 1][..n] == ms[..n];
  }

  lemma DeviceOnly(s: System, m: Move)
    requires InBounds(s) && Enabled(s, m) && (m.Fetch? || m.Complete?)
    ensures var t := Next(s, m);
            t == s.(cq := t.cq, fetched := t.fetched, working := t.working, posted := t.posted) && s.posted <= t.posted
  {
  }

  lemma {:induction false} MovedKeeps(s: System, ms: seq<Move>)
    ensures var t := Moved(s, ms);
            t == s.(cq := t.cq, fetched := t.fetched, working := t.working, posted := t.posted) && s.posted <= t.posted
  {
    hide InBounds, Enabled, Next;
    if ms != [] {
      var t, m := Moved(s, ms[..|ms| - 1]), ms[|ms| - 1];
      MovedKeeps(s, ms[..|ms| - 1]);
      if (m.Fetch? || m.Complete?) && InBounds(t) && Enabled(t, m) {
        DeviceOnly(t, m);
      }
    }
  }

  lemma NoRounds(s: System, device: seq<seq<Move>>)
    ensures Rounds(s, device[..0]) == s
  {
  }

  lemma RoundsNext(s: System, device: seq<seq<Move>>, n: nat)
    requires n < |device|
    ensures Rounds(s, device[..n + 1]) == Moved(Rounds(s, device[..n]), device[n])
  {
    hide Moved;
    assert device[..n + 1][..n] == device[..n];
  }

  lemma {:induction false} PostedGrows(s: System, device: seq<seq<Move>>, n: nat, m: nat)
    requires n <= m <= |device|
    ensures |Rounds(s, device[..n]).posted| <= |Rounds(s, device[..m]).posted|
    decreases m - n
  {
    hide Moved, Rounds;
    if n < m {
      RoundsNext(s, device, n);
      MovedKeeps(Rounds(s, device[..n]), device[n]);
      PostedGrows(s, device, n + 1, m);
    }
  }

  /** A look that finds nothing changes nothing. */
  lemma IdlePoll(s: System)
    requires Inv(s) && s.consumed >= |s.posted|
    ensures InBounds(s) && Enabled(s, Poll) && Next(s, Poll) == s
  {
    hide Submissions, Device, Completions, Pass, Ring;
    InvBounds(s);
    NewExactly(s);
  }

  lemma InvBounds(s: System)
    requires Inv(s)
    ensures InBounds(s)
  {
  }

  /** Two commands less than 65536 apart have different identifiers, so a completion that carries
      the last command's identifier is that command's own unless a command that old is still open. */
  lemma OwnCompletion(s: System, k: nat)
    requires Inv(s) && k < |s.posted| && s.sent != [] && s.posted[k].cid == s.sent[|s.sent| - 1].cid
    requires s.posted[k].index + 65536 > |s.sent| - 1
    ensures s.posted[k].index == |s.sent| - 1
  {
    hide Cid, Completions;
    var j, i := s.posted[k].index, |s.sent| - 1;
    if j < i {
      CidsApart(s.base + j, s.base + i);
    }
  }

  lemma CidsApart(a: nat, b: nat)
    requires a < b < a + 65536
    ensures Cid(a) != Cid(b)
  {
  }
}
