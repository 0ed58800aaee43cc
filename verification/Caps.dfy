/** The capability manager: a table of 64 slots for each of 32 tasks. Capabilities are minted,
    transferred, duplicated and dropped, and never made stronger. */
module Caps {
  import opened Options
  import opened Multisets

  const MAX_CAPS: nat := 64
  const MAX_TASKS: nat := 32

  type Rights = bv64

  datatype Cap = Cap(kind: nat, server: nat, rights: Rights, data: nat)

  const NULL_CAP: Cap := Cap(0, 0, 0, 0)
  const IPC_TARGET: nat := 1
  const SEND_RIGHT: Rights := 1
  const RECV_RIGHT: Rights := 2

  const OK: int := 0
  const BAD_CAP: int := -1
  const NO_SERVER: int := -2
  const TIMEOUT: int := -3
  const NO_MEM: int := -4
  const DENIED: int := -5

  /** is_valid */
  predicate IsValid(c: Cap) { c.kind != 0 }

  /** All of the rights asked for are granted. */
  predicate Grants(c: Cap, required: Rights) { Both(c.rights, required) == required }

  function Both(a: Rights, b: Rights): Rights { a & b }
  function Either(a: Rights, b: Rights): Rights { a | b }

  /** The rights asked for that are not there. */
  function Missing(rights: Rights, required: Rights): Rights { required & !rights }

  lemma Parts(rights: Rights, required: Rights)
    ensures Missing(rights, Both(rights, required)) == 0
    ensures Either(Both(rights, required), Missing(rights, required)) == required
    ensures Either(Both(rights, required), 0) == Both(rights, required)
  {
  }

  /** They are all granted exactly when none is missing. */
  lemma GrantsWhen(c: Cap, required: Rights)
    ensures Grants(c, required) <==> Missing(c.rights, required) == 0
  {
    hide Both, Either, Missing;
    Parts(c.rights, required);
  }

  // ---------- one table ----------

  type Slots = t: seq<Cap> | |t| == MAX_CAPS witness seq(MAX_CAPS, _ => NULL_CAP)

  function One(c: Cap): multiset<Cap> { if IsValid(c) then multiset{c} else multiset{} }

  /** The valid capabilities of a table. */
  function HeldIn(t: seq<Cap>): multiset<Cap> {
    if t == [] then multiset{} else One(t[0]) + HeldIn(t[1..])
  }

  lemma {:induction false} HeldUpdate(t: seq<Cap>, i: nat, c: Cap)
    requires i < |t|
    ensures HeldIn(t[i := c]) + One(t[i]) == HeldIn(t) + One(c)
  {
    hide One;
    var u := t[i := c];
    if i == 0 {
      assert u[1..] == t[1..];
    } else {
      HeldUpdate(t[1..], i - 1, c);
      assert u[1..] == t[1..][i - 1 := c] && u[0] == t[0] && t[1..][i - 1] == t[i];
      Shift(One(t[0]), HeldIn(u[1..]), One(t[i]), HeldIn(t[1..]), One(c));
    }
  }

  lemma {:induction false} HeldMember(t: seq<Cap>, i: nat)
    requires i < |t| && IsValid(t[i])
    ensures t[i] in HeldIn(t)
  {
    if i > 0 {
      HeldMember(t[1..], i - 1);
    }
  }

  // ---------- all tables ----------

  type Tables = ts: seq<Slots> | |ts| == MAX_TASKS witness seq(MAX_TASKS, _ => seq(MAX_CAPS, _ => NULL_CAP))

  /** The valid capabilities of all tables. */
  function HeldBy(ts: seq<Slots>): multiset<Cap> {
    if ts == [] then multiset{} else HeldIn(ts[0]) + HeldBy(ts[1..])
  }

  lemma {:induction false} TotalUpdate(ts: seq<Slots>, k: nat, t: Slots)
    requires k < |ts|
    ensures HeldBy(ts[k := t]) + HeldIn(ts[k]) == HeldBy(ts) + HeldIn(t)
  {
    hide HeldIn;
    var us := ts[k := t];
    if k == 0 {
      assert us[1..] == ts[1..];
    } else {
      TotalUpdate(ts[1..], k - 1, t);
      assert us[1..] == ts[1..][k - 1 := t] && us[0] == ts[0] && ts[1..][k - 1] == ts[k];
      Shift(HeldIn(ts[0]), HeldBy(us[1..]), HeldIn(ts[k]), HeldBy(ts[1..]), HeldIn(t));
    }
  }

  /** One slot of one table changed. */
  function WithSlot(ts: Tables, k: nat, i: nat, c: Cap): Tables
    requires k < MAX_TASKS && i < MAX_CAPS
  {
    ts[k := ts[k][i := c]]
  }

  /** Changing a slot changes the whole by that slot's capability. */
  lemma SlotUpdate(ts: Tables, k: nat, i: nat, c: Cap)
    requires k < MAX_TASKS && i < MAX_CAPS
    ensures HeldBy(WithSlot(ts, k, i, c)) + One(ts[k][i]) == HeldBy(ts) + One(c)
  {
    hide HeldIn, HeldBy, One;
    var t := ts[k][i := c];
    HeldUpdate(ts[k], i, c);
    TotalUpdate(ts, k, t);
    Balance(HeldBy(WithSlot(ts, k, i, c)), HeldIn(ts[k]), HeldBy(ts), HeldIn(t), One(ts[k][i]), One(c));
  }

  lemma Balance(x: multiset<Cap>, p: multiset<Cap>, y: multiset<Cap>, q: multiset<Cap>, a: multiset<Cap>,
                b: multiset<Cap>)
    requires x + p == y + q && q + a == p + b
    ensures x + a == y + b
  {
    forall c: Cap ensures (x + a)[c] == (y + b)[c] {
      assert (x + p)[c] == (y + q)[c];
      assert (q + a)[c] == (p + b)[c];
    }
  }

  lemma {:induction false} TotalMember(ts: seq<Slots>, k: nat, i: nat)
    requires k < |ts| && i < MAX_CAPS && IsValid(ts[k][i])
    ensures ts[k][i] in HeldBy(ts)
  {
    hide HeldIn;
    if k == 0 {
      HeldMember(ts[0], i);
    } else {
      TotalMember(ts[1..], k - 1, i);
    }
  }

  /** Moving a capability to an empty slot of any table, even one's own, conserves the whole. */
  lemma MoveConserves(ts: Tables, src: nat, idx: nat, dst: nat, i: nat)
    requires src < MAX_TASKS && dst < MAX_TASKS && idx < MAX_CAPS && i < MAX_CAPS
    requires IsValid(ts[src][idx]) && !IsValid(ts[dst][i])
    ensures var ts1 := WithSlot(ts, dst, i, ts[src][idx]);
            HeldBy(WithSlot(ts1, src, idx, NULL_CAP)) == HeldBy(ts)
  {
    hide HeldBy;
    var c := ts[src][idx];
    var ts1 := WithSlot(ts, dst, i, c);
    SlotUpdate(ts, dst, i, c);
    assert ts1[src][idx] == c;
    SlotUpdate(ts1, src, idx, NULL_CAP);
    assert HeldBy(ts1) + multiset{} == HeldBy(ts1);
    Cancel(HeldBy(WithSlot(ts1, src, idx, NULL_CAP)), HeldBy(ts), multiset{c});
  }

  // ---------- the manager ----------

  /** What the capability code reads of a task: whether its slot is taken, its id and its user. */
  datatype TaskInfo = TaskInfo(live: bool, id: nat, uid: nat)

  type TaskTable = ts: seq<TaskInfo> | |ts| == MAX_TASKS witness seq(MAX_TASKS, _ => TaskInfo(false, 0, 0))

  /** The slot of a task id, or the number of slots. */
  function SlotOf(ts: seq<TaskInfo>, id: nat, from: nat): (k: nat)
    requires from <= |ts|
    ensures from <= k <= |ts| && (k < |ts| ==> ts[k].live && ts[k].id == id)
    ensures forall j :: from <= j < k ==> !(ts[j].live && ts[j].id == id)
    decreases |ts| - from
  {
    if from == |ts| || (ts[from].live && ts[from].id == id) then from else SlotOf(ts, id, from + 1)
  }

  /** The first invalid slot of a table, or the number of slots. */
  function FirstEmpty(t: seq<Cap>, from: nat): (i: nat)
    requires from <= |t|
    ensures from <= i <= |t| && (i < |t| ==> !IsValid(t[i]))
    ensures forall j :: from <= j < i ==> IsValid(t[j])
    decreases |t| - from
  {
    if from == |t| || !IsValid(t[from]) then from else FirstEmpty(t, from + 1)
  }

  /** A capability passed from a task of one user to a task of another. */
  datatype Passing = Passing(from: nat, to: nat)

  predicate Allowed(p: Passing) { p.from == 0 || p.from == p.to }

  class CapManager {
    var tables: Tables
    var tasks: TaskTable
    var current: nat
    /** Every capability ever minted, and every passing between tasks so far. */
    ghost var minted: set<Cap>
    ghost var passings: seq<Passing>

    ghost predicate Valid()
      reads this
    {
      && current < MAX_TASKS
      && (forall c :: c in HeldBy(tables) ==> c in minted)
      && (forall p :: p in passings ==> Allowed(p))
    }

    constructor (tasks: TaskTable, current: nat)
      requires current < MAX_TASKS
      ensures Valid() && minted == {} && passings == [] && HeldBy(tables) == multiset{}
      ensures this.tasks == tasks && this.current == current
    {
      this.tables := seq(MAX_TASKS, _ => seq(MAX_CAPS, _ => NULL_CAP));
      this.tasks := tasks;
      this.current := current;
      this.minted := {};
      this.passings := [];
      new;
      EmptyTables(tables);
    }

    /** CapTable::alloc on the table of slot k. */
    method AllocIn(k: nat, c: Cap) returns (r: Option<nat>)
      requires k < MAX_TASKS
      modifies this`tables
      ensures var i := FirstEmpty(old(tables)[k], 0);
              if i < MAX_CAPS then r == Some(i) && tables == WithSlot(old(tables), k, i, c)
                  else r.None? && tables == old(tables)
    {
      hide FirstEmpty;
      var t := tables[k];
      for i := 0 to MAX_CAPS
        invariant tables == old(tables)
        invariant forall j :: 0 <= j < i ==> IsValid(t[j])
      {
        if !IsValid(t[i]) {
          tables := tables[k := t[i := c]];
          FirstEmptyIs(t, i);
          return Some(i);
        }
      }
      FirstEmptyIs(t, MAX_CAPS);
      return None;
    }

    /** CapTable::get for the current task. */
    method Get(idx: nat) returns (r: Option<Cap>)
      requires Valid()
      ensures r == Lookup(tables, current, idx)
      ensures r.Some? ==> r.value in minted
    {
      if idx >= MAX_CAPS {
        return None;
      }
      if !IsValid(tables[current][idx]) {
        return None;
      }
      TotalMember(tables, current, idx);
      return Some(tables[current][idx]);
    }

    /** validate: a valid capability with all the rights asked for. */
    method Validate(idx: nat, required: Rights) returns (ok: bool)
      requires Valid()
      ensures ok <==> Lookup(tables, current, idx).Some? && Grants(Lookup(tables, current, idx).value, required)
      ensures ok <==> idx < 64 && tables[current][idx].kind != 0 && Missing(tables[current][idx].rights, required) == 0
    {
      hide HeldBy, Grants, Missing;
      var c := Get(idx);
      GrantsWhen(if idx < MAX_CAPS then tables[current][idx] else NULL_CAP, required);
      ok := c.Some? && Grants(c.value, required);
    }

    method FindTask(id: nat) returns (k: nat)
      ensures k == SlotOf(tasks, id, 0)
    {
      k := 0;
      while k < MAX_TASKS
        invariant 0 <= k <= MAX_TASKS && SlotOf(tasks, id, 0) == SlotOf(tasks, id, k)
      {
        if tasks[k].live && tasks[k].id == id {
          return;
        }
        k := k + 1;
      }
    }

    /** alloc for the current task, and alloc_for when slot is that of another task. */
    method Mint(slot: nat, c: Cap) returns (r: Option<nat>)
      requires Valid() && slot < MAX_TASKS
      modifies this`tables, this`minted
      ensures Valid() && minted == if r.Some? then old(minted) + {c} else old(minted)
      ensures r.None? ==> tables == old(tables)
      ensures r.Some? ==> HeldBy(tables) == HeldBy(old(tables)) + One(c)
    {
      hide HeldBy, FirstEmpty;
      var ts := tables;
      r := AllocIn(slot, c);
      if r.Some? {
        minted := minted + {c};
        Filled(ts, slot, r.value, c);
      }
    }

    /** transfer */
    method Transfer(dstId: nat, idx: nat) returns (r: int)
      requires Valid()
      modifies this`tables, this`passings
      ensures Valid() && r == PassResult(old(tables), tasks, current, dstId, idx)
      ensures r != OK ==> tables == old(tables) && passings == old(passings)
      ensures r == OK ==>
              HeldBy(tables) == HeldBy(old(tables)) &&
              Moved(old(tables), tables, tasks, current, dstId, idx)
      ensures r == OK ==> passings == old(passings) + [Passing(tasks[current].uid, tasks[SlotOf(tasks, dstId, 0)].uid)]
      ensures Answers(r, old(tables), tasks, current, dstId, idx)
    {
      hide HeldBy, FirstEmpty, SlotOf, Answers;
      PassAnswers(tables, tasks, current, dstId, idx);
      var c := Get(idx);
      if c.None? {
        return BAD_CAP;
      }
      var dst := FindTask(dstId);
      if dst == MAX_TASKS {
        return NO_SERVER;
      }
      var srcUid := tasks[current].uid;
      var dstUid := tasks[dst].uid;
      if srcUid != 0 && srcUid != dstUid {
        return DENIED;
      }
      var ts := tables;
      var i := AllocIn(dst, c.value);
      if i.None? {
        return NO_MEM;
      }
      MoveConserves(ts, current, idx, dst, i.value);
      tables := tables[current := tables[current][idx := NULL_CAP]];
      passings := passings + [Passing(srcUid, dstUid)];
      return OK;
    }

    /** duplicate */
    method Duplicate(dstId: nat, idx: nat) returns (r: int)
      requires Valid()
      modifies this`tables, this`passings
      ensures Valid() && r == PassResult(old(tables), tasks, current, dstId, idx)
      ensures r != OK ==> tables == old(tables) && passings == old(passings)
      ensures r == OK ==> HeldBy(tables) == HeldBy(old(tables)) + multiset{old(tables)[current][idx]}
      ensures r == OK ==> passings == old(passings) + [Passing(tasks[current].uid, tasks[SlotOf(tasks, dstId, 0)].uid)]
      ensures Answers(r, old(tables), tasks, current, dstId, idx)
    {
      hide HeldBy, FirstEmpty, SlotOf, Answers;
      PassAnswers(tables, tasks, current, dstId, idx);
      var c := Get(idx);
      if c.None? {
        return BAD_CAP;
      }
      var dst := FindTask(dstId);
      if dst == MAX_TASKS {
        return NO_SERVER;
      }
      var srcUid := tasks[current].uid;
      var dstUid := tasks[dst].uid;
      if srcUid != 0 && srcUid != dstUid {
        return DENIED;
      }
      var ts := tables;
      var i := AllocIn(dst, c.value);
      if i.None? {
        return NO_MEM;
      }
      Filled(ts, dst, i.value, c.value);
      passings := passings + [Passing(srcUid, dstUid)];
      return OK;
    }

    /** free_all */
    method FreeAll(id: nat)
      requires Valid()
      modifies this`tables
      ensures Valid()
      ensures var k := SlotOf(tasks, id, 0);
              if k < MAX_TASKS then tables == old(tables)[k := seq(MAX_CAPS, _ => NULL_CAP)] &&
                  HeldBy(tables) + HeldIn(old(tables)[k]) == HeldBy(old(tables))
              else tables == old(tables)
    {
      hide HeldBy, HeldIn, SlotOf;
      var k := FindTask(id);
      if k < MAX_TASKS {
        ghost var ts := tables;
        var none: Slots := seq(MAX_CAPS, _ => NULL_CAP);
        tables := tables[k := none];
        TotalUpdate(ts, k, none);
        EmptyTable(none);
        assert HeldBy(ts) + multiset{} == HeldBy(ts);
        Fewer(HeldBy(tables), HeldIn(ts[k]), HeldBy(ts));
      }
    }
  }

  /** get: a valid capability at an index of a task's table. */
  function Lookup(ts: Tables, k: nat, idx: nat): Option<Cap>
    requires k < MAX_TASKS
  {
    if idx < MAX_CAPS && IsValid(ts[k][idx]) then Some(ts[k][idx]) else None
  }

  /** What each answer of transfer and duplicate says: -1 for no valid capability at the index, -2
      for no task of the id, -5 for a task of another user unless the giver is of user 0, -4 for a
      full table, and 0. */
  ghost predicate Answers(r: int, ts: Tables, tasks: TaskTable, cur: nat, dstId: nat, idx: nat)
    requires cur < MAX_TASKS
  {
    var held := idx < 64 && ts[cur][idx].kind != 0;
    var dst := SlotOf(tasks, dstId, 0);
    && (r == -1 <==> !held)
    && (r == -2 <==> held && forall k :: 0 <= k < 32 ==> !(tasks[k].live && tasks[k].id == dstId))
    && (r == -5 <==> held && dst < 32 && tasks[cur].uid != 0 && tasks[cur].uid != tasks[dst].uid)
    && (tasks[cur].uid == 0 ==> r != -5)
    && (r == -4 ==> held && dst < 32 && forall i :: 0 <= i < 64 ==> ts[dst][i].kind != 0)
    && (r == 0 ==> exists i :: 0 <= i < 64 && ts[dst][i].kind == 0)
    && (r == 0 || r == -1 || r == -2 || r == -4 || r == -5)
  }

  lemma PassAnswers(ts: Tables, tasks: TaskTable, cur: nat, dstId: nat, idx: nat)
    requires cur < MAX_TASKS
    ensures Answers(PassResult(ts, tasks, cur, dstId, idx), ts, tasks, cur, dstId, idx)
  {
    var dst := SlotOf(tasks, dstId, 0);
    if dst < MAX_TASKS {
      var i := FirstEmpty(ts[dst], 0);
      assert i < MAX_CAPS ==> ts[dst][i].kind == 0;
    }
  }

  /** The answer of transfer and duplicate, in the order of their checks. */
  function PassResult(ts: Tables, tasks: TaskTable, cur: nat, dstId: nat, idx: nat): int
    requires cur < MAX_TASKS
  {
    if Lookup(ts, cur, idx).None? then BAD_CAP
    else
      var dst := SlotOf(tasks, dstId, 0);
      if dst == MAX_TASKS then NO_SERVER
      else if tasks[cur].uid != 0 && tasks[cur].uid != tasks[dst].uid then DENIED
      else if FirstEmpty(ts[dst], 0) == MAX_CAPS then NO_MEM
      else OK
  }

  /** The capability has gone from the giver's slot to the first empty slot of the taker. */
  ghost predicate Moved(before: Tables, after: Tables, tasks: TaskTable, cur: nat, dstId: nat, idx: nat)
    requires cur < MAX_TASKS
  {
    var dst := SlotOf(tasks, dstId, 0);
    && idx < MAX_CAPS && dst < MAX_TASKS && FirstEmpty(before[dst], 0) < MAX_CAPS
    && after == WithSlot(WithSlot(before, dst, FirstEmpty(before[dst], 0), before[cur][idx]), cur, idx,
                       Cap(0, 0, 0, 0))
  }

  lemma FirstEmptyIs(t: Slots, i: nat)
    requires i <= MAX_CAPS && (i < MAX_CAPS ==> !IsValid(t[i])) && forall j :: 0 <= j < i ==> IsValid(t[j])
    ensures FirstEmpty(t, 0) == i
  {
    var k := FirstEmpty(t, 0);
  }

  /** An empty slot filled. */
  lemma Filled(ts: Tables, k: nat, i: nat, c: Cap)
    requires k < MAX_TASKS && i < MAX_CAPS && !IsValid(ts[k][i])
    ensures HeldBy(WithSlot(ts, k, i, c)) == HeldBy(ts) + One(c)
  {
    hide HeldBy;
    SlotUpdate(ts, k, i, c);
    assert HeldBy(WithSlot(ts, k, i, c)) + multiset{} == HeldBy(WithSlot(ts, k, i, c));
  }

  lemma Fewer(x: multiset<Cap>, y: multiset<Cap>, z: multiset<Cap>)
    requires x + y == z
    ensures forall c :: c in x ==> c in z
  {
  }

  lemma {:induction false} EmptyTable(t: seq<Cap>)
    requires forall i :: 0 <= i < |t| ==> t[i] == NULL_CAP
    ensures HeldIn(t) == multiset{}
  {
    if t != [] {
      EmptyTable(t[1..]);
    }
  }

  lemma {:induction false} EmptyTables(ts: seq<Slots>)
    requires forall k, i :: 0 <= k < |ts| && 0 <= i < MAX_CAPS ==> ts[k][i] == NULL_CAP
    ensures HeldBy(ts) == multiset{}
  {
    if ts != [] {
      EmptyTable(ts[0]);
      EmptyTables(ts[1..]);
    }
  }

  // ---------- runs ----------

  datatype Call =
    | MintFor(slot: nat, cap: Cap)
    | Pass(dst: nat, idx: nat)
    | Share(dst: nat, idx: nat)
    | Drop(id: nat)
    | Reschedule(tasks: TaskTable, current: nat)

  /** Over any run of calls, with tasks coming and going in between, every valid capability is one
      that was minted, bit for bit, and a task of a user other than 0 has only ever passed
      capabilities to tasks of that user. */
  method Serve(m: CapManager, calls: seq<Call>) returns (results: seq<int>)
    requires m.Valid()
    modifies m
    ensures m.Valid() && |results| == |calls|
    ensures m.minted == old(m.minted) + MintedBy(calls, results)
    ensures forall k, i :: 0 <= k < MAX_TASKS && 0 <= i < MAX_CAPS && IsValid(m.tables[k][i]) ==>
            m.tables[k][i] in m.minted
  {
    hide HeldBy, HeldIn, FirstEmpty, SlotOf, PassResult, Moved;
    results := [];
    for n := 0 to |calls|
      invariant m.Valid() && |results| == n
      invariant m.minted == old(m.minted) + MintedBy(calls[..n], results)
    {
      assert calls[..n + 1][..n] == calls[..n];
      var r := OK;
      match calls[n] {
        case MintFor(slot, cap) =>
          if slot < MAX_TASKS {
            var i := m.Mint(slot, cap);
            r := if i.Some? then i.value else NO_MEM;
          }
        case Pass(dst, idx) => r := m.Transfer(dst, idx);
        case Share(dst, idx) => r := m.Duplicate(dst, idx);
        case Drop(id) => m.FreeAll(id);
        case Reschedule(tasks, current) =>
          if current < MAX_TASKS {
            m.tasks := tasks;
            m.current := current;
          }
      }
      assert (results + [r])[..n] == results;
      results := results + [r];
    }
    assert calls[..|calls|] == calls;
    forall k, i | 0 <= k < MAX_TASKS && 0 <= i < MAX_CAPS && IsValid(m.tables[k][i])
      ensures m.tables[k][i] in m.minted
    {
      TotalMember(m.tables, k, i);
    }
  }

  /** The capabilities that a run mints: those of the calls that found a slot. */
  ghost function MintedBy(calls: seq<Call>, results: seq<int>): set<Cap>
    requires |results| == |calls|
  {
    if calls == [] then {}
    else
      var n := |calls| - 1;
      MintedBy(calls[..n], results[..n]) +
      if calls[n].MintFor? && calls[n].slot < MAX_TASKS && results[n] >= 0 then {calls[n].cap} else {}
  }
}
