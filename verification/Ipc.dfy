/** The IPC rendezvous as a transition system: each call up to its yield is one step, a blocked
    task goes on once it is Ready, and task ids are unique. Letters are messages with a serial
    number that identifies the call that sent them. */
module Ipc {
  import opened Multisets

  datatype TaskState = Free | Ready | Running | Exited | BlockedSend | BlockedRecv

  /** kind is msg_type; a letter of kind 0 counts as no letter in the slot for messages to oneself. */
  datatype Letter = Letter(serial: nat, to: nat, kind: nat, body: int)

  /** Where a task stands in the IPC code: outside it, or after the yield of a send or receive. */
  datatype Phase = Idle | Sending | Receiving

  datatype Task = Task(state: TaskState, id: nat, partner: nat, val: nat, msg: Letter, parked: Letter, phase: Phase)

  const ANY_PARTNER: nat := 0

  predicate Active(t: Task) { t.state == Ready || t.state == Running }

  // ---------- the steps ----------

  /** send_with_cap to another task that takes the message at once. */
  function Delivered(dst: Task, from: nat, m: Letter): Task {
    dst.(state := Ready, partner := from, parked := m, val := 1)
  }

  /** send_with_cap that has to wait. */
  function Waiting(cur: Task, target: nat, m: Letter): Task {
    cur.(state := BlockedSend, partner := target, msg := m, val := 1, phase := Sending)
  }

  predicate Takes(dst: Task, from: nat) {
    dst.state == BlockedRecv && (dst.partner == from || dst.partner == ANY_PARTNER)
  }

  function AfterSend(ts: seq<Task>, cur: nat, dst: nat, m: Letter): (r: seq<Task>)
    requires cur < |ts| && dst < |ts|
    ensures |r| == |ts|
  {
    if Takes(ts[dst], ts[cur].id) then ts[dst := Delivered(ts[dst], ts[cur].id, m)]
    else ts[cur := Waiting(ts[cur], ts[dst].id, m)]
  }

  /** Task i is blocked in a send to the given id. */
  predicate WaitsFor(t: Task, id: nat) { t.state == BlockedSend && t.partner == id }

  /** The first slot whose task waits to send to id, or the number of slots. */
  function FirstSender(ts: seq<Task>, id: nat, from: nat): (i: nat)
    requires from <= |ts|
    ensures from <= i <= |ts| && (i < |ts| ==> WaitsFor(ts[i], id))
    ensures forall j :: from <= j < i ==> !WaitsFor(ts[j], id)
    decreases |ts| - from
  {
    if from == |ts| || WaitsFor(ts[from], id) then from else FirstSender(ts, id, from + 1)
  }

  /** What a receive does before its yield. */
  datatype Outcome = FromSender(i: nat) | Left | Blocks

  function Outlook(ts: seq<Task>, cur: nat): Outcome
    requires cur < |ts|
  {
    var i := FirstSender(ts, ts[cur].id, 0);
    if i < |ts| then FromSender(i) else if ts[cur].val != 0 then Left else Blocks
  }

  function AfterRecv(ts: seq<Task>, cur: nat): (r: seq<Task>)
    requires cur < |ts|
    ensures |r| == |ts|
  {
    match Outlook(ts, cur)
    case FromSender(i) => ts[i := ts[i].(state := Ready)]
    case Left => ts[cur := ts[cur].(val := 0)]
    case Blocks => ts[cur := ts[cur].(state := BlockedRecv, partner := ANY_PARTNER, phase := Receiving)]
  }

  /** The rest of a call after its yield. */
  function AfterResume(t: Task): Task {
    if t.phase == Receiving then t.(val := 0, phase := Idle) else t.(phase := Idle)
  }

  // ---------- the system ----------

  /** The task table, the messages accepted and those received, and for each slot whether its
      task has blocked in a send since its flag was last cleared. */
  datatype SystemData = SystemData(tasks: seq<Task>, accepted: multiset<Letter>, received: multiset<Letter>,
                                   residue: seq<bool>)

  type System = s: SystemData | |s.residue| == |s.tasks| witness SystemData([], multiset{}, multiset{}, [])

  datatype Event =
    | Send(cur: nat, dst: nat, m: Letter)
    | Receive(cur: nat)
    | Resume(cur: nat)
    | Schedule(cur: nat)
    | Spawn(slot: nat, id: nat)
    | Exit(cur: nat)

  /** The call is one that the running task can make now. */
  ghost predicate Possible(s: System, e: Event) {
    match e
    case Send(cur, dst, m) =>
      && cur < |s.tasks| && dst < |s.tasks| && cur != dst
      && s.tasks[cur].state == Running && s.tasks[cur].phase == Idle && s.tasks[dst].state != Free
      && m.to == s.tasks[dst].id && forall a :: a in s.accepted ==> a.serial != m.serial
    case Receive(cur) => cur < |s.tasks| && s.tasks[cur].state == Running && s.tasks[cur].phase == Idle
    case Resume(cur) => cur < |s.tasks| && s.tasks[cur].phase != Idle && s.tasks[cur].state == Running
    case Schedule(cur) => cur < |s.tasks| && Active(s.tasks[cur])
    case Spawn(slot, id) =>
      && slot < |s.tasks| && s.tasks[slot].state == Free && id != 0
      && forall j :: 0 <= j < |s.tasks| && s.tasks[j].state != Free ==> s.tasks[j].id != id
    case Exit(cur) => cur < |s.tasks| && s.tasks[cur].state == Running && s.tasks[cur].phase == Idle
  }

  function NewTask(id: nat): Task {
    var none := Letter(0, 0, 0, 0);
    Task(Ready, id, 0, 0, none, none, Idle)
  }

  ghost function Next(s: System, e: Event): System
    requires Possible(s, e)
  {
    var ts := s.tasks;
    match e
    case Send(cur, dst, m) =>
      var r := if Takes(ts[dst], ts[cur].id) then s.residue else s.residue[cur := true];
      SystemData(AfterSend(ts, cur, dst, m), s.accepted + multiset{m}, s.received, r)
    case Receive(cur) =>
      (match Outlook(ts, cur)
       case FromSender(i) => s.(tasks := AfterRecv(ts, cur), received := s.received + multiset{ts[i].msg})
       case Left => s.(tasks := AfterRecv(ts, cur), residue := s.residue[cur := false])
       case Blocks => s.(tasks := AfterRecv(ts, cur)))
    case Resume(cur) =>
      if ts[cur].phase == Receiving then
        s.(tasks := ts[cur := AfterResume(ts[cur])], received := s.received + multiset{ts[cur].parked},
           residue := s.residue[cur := false])
      else s.(tasks := ts[cur := AfterResume(ts[cur])])
    case Schedule(cur) => s.(tasks := ts[cur := ts[cur].(state := if ts[cur].state == Ready then Running else Ready)])
    case Spawn(slot, id) => s.(tasks := ts[slot := NewTask(id)], residue := s.residue[slot := false])
    case Exit(cur) => s.(tasks := ts[cur := ts[cur].(state := Free)], residue := s.residue[cur := false])
  }

  // ---------- where letters are ----------

  /** The letter that a task keeps for delivery: its own while it waits to send, the one parked
      with it between a delivery and the end of its receive. */
  function Carried(t: Task): multiset<Letter> {
    if t.state == BlockedSend then multiset{t.msg}
    else if t.phase == Receiving && Active(t) then multiset{t.parked}
    else multiset{}
  }

  function InFlight(ts: seq<Task>): multiset<Letter> {
    if ts == [] then multiset{} else Carried(ts[0]) + InFlight(ts[1..])
  }

  lemma {:induction false} InFlightUpdate(ts: seq<Task>, i: nat, t: Task)
    requires i < |ts|
    ensures InFlight(ts[i := t]) + Carried(ts[i]) == InFlight(ts) + Carried(t)
  {
    hide Carried;
    var us := ts[i := t];
    if i == 0 {
      assert us[1..] == ts[1..];
    } else {
      InFlightUpdate(ts[1..], i - 1, t);
      assert us[1..] == ts[1..][i - 1 := t] && us[0] == ts[0] && ts[1..][i - 1] == ts[i];
      Shift(Carried(ts[0]), InFlight(us[1..]), Carried(ts[i]), InFlight(ts[1..]), Carried(t));
    }
  }

  /** A task changed without taking up or giving away a letter. */
  lemma SameFlight(ts: seq<Task>, i: nat, t: Task)
    requires i < |ts| && Carried(t) == Carried(ts[i])
    ensures InFlight(ts[i := t]) == InFlight(ts)
  {
    hide Carried, InFlight;
    InFlightUpdate(ts, i, t);
    Cancel(InFlight(ts[i := t]), InFlight(ts), Carried(t));
  }

  /** A task that gave its letter away. */
  lemma LessFlight(ts: seq<Task>, i: nat, t: Task, m: Letter)
    requires i < |ts| && Carried(ts[i]) == multiset{m} && Carried(t) == multiset{}
    ensures InFlight(ts) == InFlight(ts[i := t]) + multiset{m}
  {
    hide Carried, InFlight;
    InFlightUpdate(ts, i, t);
    assert InFlight(ts) + multiset{} == InFlight(ts);
  }

  // ---------- the invariant ----------

  /** What holds of one task. */
  ghost predicate Consistent(t: Task, residue: bool) {
    && (t.state == BlockedSend ==> t.phase == Sending && t.msg.to == t.partner)
    && (t.state == BlockedRecv ==> t.phase == Receiving && t.val == 0 && t.partner == ANY_PARTNER && !residue)
    && (t.phase == Receiving && Active(t) ==> t.val == 1 && t.parked.to == t.id)
    && (t.phase != Receiving && t.state != Free ==> (t.val != 0 <==> residue))
    && (t.state == Free || t.state == Exited ==> t.phase == Idle)
  }

  ghost predicate UniqueIds(ts: seq<Task>) {
    forall i, j :: 0 <= i < j < |ts| && ts[i].state != Free && ts[j].state != Free ==> ts[i].id != ts[j].id
  }

  /** No task waits to send to a task that waits to receive. */
  ghost predicate NoMissedMeeting(ts: seq<Task>) {
    forall i, j :: 0 <= i < |ts| && 0 <= j < |ts| && ts[j].state == BlockedRecv ==> !WaitsFor(ts[i], ts[j].id)
  }

  ghost predicate Inv(s: System) {
    && (forall i :: 0 <= i < |s.tasks| ==> Consistent(s.tasks[i], s.residue[i]))
    && UniqueIds(s.tasks) && NoMissedMeeting(s.tasks)
    && s.accepted == InFlight(s.tasks) + s.received
    && (forall a :: s.accepted[a] <= 1)
    && (forall a, b :: a in s.accepted && b in s.accepted && a.serial == b.serial ==> a == b)
  }

  // ---------- every step keeps it ----------

  /** A change of one task that keeps its id, or frees or fills the slot, keeps the shape of the table. */
  lemma OneTask(s: System, i: nat, t: Task, residue: bool)
    requires Inv(s) && i < |s.tasks| && Consistent(t, residue)
    requires t.state != Free ==> forall j :: 0 <= j < |s.tasks| && j != i && s.tasks[j].state != Free ==>
             s.tasks[j].id != t.id
    requires t.state == BlockedSend ==> forall j :: 0 <= j < |s.tasks| && j != i && s.tasks[j].state == BlockedRecv ==>
             s.tasks[j].id != t.partner
    requires t.state == BlockedRecv ==> forall j :: 0 <= j < |s.tasks| && j != i ==> !WaitsFor(s.tasks[j], t.id)
    ensures var ts := s.tasks[i := t];
            UniqueIds(ts) && NoMissedMeeting(ts) &&
            forall k :: 0 <= k < |ts| ==> Consistent(ts[k], s.residue[i := residue][k])
  {
    hide InFlight, Consistent;
    var ts := s.tasks[i := t];
    forall a, b | 0 <= a < |ts| && 0 <= b < |ts| && ts[b].state == BlockedRecv ensures !WaitsFor(ts[a], ts[b].id) {
      if a != i && b != i {
        assert !WaitsFor(s.tasks[a], s.tasks[b].id);
      }
    }
  }

  lemma SendKeeps(s: System, cur: nat, dst: nat, m: Letter)
    requires Inv(s) && Possible(s, Send(cur, dst, m))
    ensures Inv(Next(s, Send(cur, dst, m)))
  {
    hide InFlight, Inv;
    if Takes(s.tasks[dst], s.tasks[cur].id) {
      DeliveryKeeps(s, cur, dst, m);
    } else {
      WaitingKeeps(s, cur, dst, m);
    }
  }

  lemma DeliveryKeeps(s: System, cur: nat, dst: nat, m: Letter)
    requires Inv(s) && Possible(s, Send(cur, dst, m)) && Takes(s.tasks[dst], s.tasks[cur].id)
    ensures Inv(Next(s, Send(cur, dst, m)))
  {
    hide InFlight;
    var ts := s.tasks;
    var t := Delivered(ts[dst], ts[cur].id, m);
    OneTask(s, dst, t, s.residue[dst]);
    assert s.residue[dst := s.residue[dst]] == s.residue;
    InFlightUpdate(ts, dst, t);
    Plus(s, InFlight(ts[dst := t]), m);
  }

  lemma WaitingKeeps(s: System, cur: nat, dst: nat, m: Letter)
    requires Inv(s) && Possible(s, Send(cur, dst, m)) && !Takes(s.tasks[dst], s.tasks[cur].id)
    ensures Inv(Next(s, Send(cur, dst, m)))
  {
    hide InFlight;
    var ts := s.tasks;
    var t := Waiting(ts[cur], ts[dst].id, m);
    OneTask(s, cur, t, true);
    InFlightUpdate(ts, cur, t);
    Plus(s, InFlight(ts[cur := t]), m);
  }

  /** One more letter accepted and in flight. */
  lemma Plus(s: System, flight: multiset<Letter>, m: Letter)
    requires Inv(s) && flight == InFlight(s.tasks) + multiset{m} && forall a :: a in s.accepted ==> a.serial != m.serial
    ensures s.accepted + multiset{m} == flight + s.received
    ensures forall a :: (s.accepted + multiset{m})[a] <= 1
    ensures forall a, b :: a in s.accepted + multiset{m} && b in s.accepted + multiset{m} && a.serial == b.serial ==>
            a == b
  {
    hide InFlight, Consistent, UniqueIds, NoMissedMeeting;
    assert m !in s.accepted;
  }

  lemma ReceiveKeeps(s: System, cur: nat)
    requires Inv(s) && Possible(s, Receive(cur))
    ensures Inv(Next(s, Receive(cur)))
  {
    hide InFlight, FirstSender;
    var ts := s.tasks;
    match Outlook(ts, cur)
    case FromSender(i) =>
      var t := ts[i].(state := Ready);
      OneTask(s, i, t, s.residue[i]);
      assert s.residue[i := s.residue[i]] == s.residue;
      LessFlight(ts, i, t, ts[i].msg);
      Minus(s, InFlight(ts[i := t]), ts[i].msg);
    case Left =>
      var t := ts[cur].(val := 0);
      OneTask(s, cur, t, false);
      SameFlight(ts, cur, t);
    case Blocks =>
      var t := ts[cur].(state := BlockedRecv, partner := ANY_PARTNER, phase := Receiving);
      OneTask(s, cur, t, s.residue[cur]);
      assert s.residue[cur := s.residue[cur]] == s.residue;
      SameFlight(ts, cur, t);
  }

  lemma ResumeKeeps(s: System, cur: nat)
    requires Inv(s) && Possible(s, Resume(cur))
    ensures Inv(Next(s, Resume(cur)))
  {
    hide InFlight;
    var t := AfterResume(s.tasks[cur]);
    OneTask(s, cur, t, if t.val == 0 then false else s.residue[cur]);
    assert s.residue[cur := s.residue[cur]] == s.residue;
    if s.tasks[cur].phase == Receiving {
      LessFlight(s.tasks, cur, t, s.tasks[cur].parked);
      Minus(s, InFlight(s.tasks[cur := t]), s.tasks[cur].parked);
    } else {
      SameFlight(s.tasks, cur, t);
    }
  }

  /** One letter moved from flight to the receiver. */
  lemma Minus(s: System, flight: multiset<Letter>, m: Letter)
    requires Inv(s) && InFlight(s.tasks) == flight + multiset{m}
    ensures s.accepted == flight + (s.received + multiset{m})
  {
    hide InFlight, Consistent, UniqueIds, NoMissedMeeting;
  }

  lemma ScheduleKeeps(s: System, cur: nat)
    requires Inv(s) && Possible(s, Schedule(cur))
    ensures Inv(Next(s, Schedule(cur)))
  {
    hide InFlight;
    var t := s.tasks[cur].(state := if s.tasks[cur].state == Ready then Running else Ready);
    OneTask(s, cur, t, s.residue[cur]);
    assert s.residue[cur := s.residue[cur]] == s.residue;
    SameFlight(s.tasks, cur, t);
  }

  lemma SpawnKeeps(s: System, slot: nat, id: nat)
    requires Inv(s) && Possible(s, Spawn(slot, id))
    ensures Inv(Next(s, Spawn(slot, id)))
  {
    hide InFlight;
    OneTask(s, slot, NewTask(id), false);
    SameFlight(s.tasks, slot, NewTask(id));
  }

  lemma ExitKeeps(s: System, cur: nat)
    requires Inv(s) && Possible(s, Exit(cur))
    ensures Inv(Next(s, Exit(cur)))
  {
    hide InFlight;
    var t := s.tasks[cur].(state := Free);
    OneTask(s, cur, t, false);
    SameFlight(s.tasks, cur, t);
  }

  lemma StepKeeps(s: System, e: Event)
    requires Inv(s) && Possible(s, e)
    ensures Inv(Next(s, e))
  {
    hide Inv, Next, Possible;
    match e
    case Send(cur, dst, m) => SendKeeps(s, cur, dst, m);
    case Receive(cur) => ReceiveKeeps(s, cur);
    case Resume(cur) => ResumeKeeps(s, cur);
    case Schedule(cur) => ScheduleKeeps(s, cur);
    case Spawn(slot, id) => SpawnKeeps(s, slot, id);
    case Exit(cur) => ExitKeeps(s, cur);
  }

  // ---------- runs ----------

  /** Every event of the run can happen where it stands. */
  ghost predicate PossibleRun(s: System, es: seq<Event>)
    decreases |es|
  {
    es == [] || (Possible(s, es[0]) && PossibleRun(Next(s, es[0]), es[1..]))
  }

  ghost function RunOf(s: System, es: seq<Event>): System
    requires PossibleRun(s, es)
    decreases |es|
  {
    if es == [] then s else RunOf(Next(s, es[0]), es[1..])
  }

  /** No letters yet, and no task inside the IPC code. */
  ghost predicate Initial(s: System) {
    && s.accepted == multiset{} && s.received == multiset{}
    && UniqueIds(s.tasks)
    && forall i :: 0 <= i < |s.tasks| ==>
         !s.residue[i] && s.tasks[i].val == 0 && s.tasks[i].phase == Idle &&
         (s.tasks[i].state == Free || s.tasks[i].state == Ready || s.tasks[i].state == Running)
  }

  lemma {:induction false} NothingInFlight(ts: seq<Task>)
    requires forall i :: 0 <= i < |ts| ==> ts[i].phase == Idle && ts[i].state != BlockedSend
    ensures InFlight(ts) == multiset{}
  {
    if ts != [] {
      NothingInFlight(ts[1..]);
    }
  }

  /** In every reachable state: no missed meeting, and every accepted letter is with its blocked
      sender, parked with its addressee, or received. */
  lemma {:induction false} Reachable(s: System, es: seq<Event>)
    requires Initial(s) && PossibleRun(s, es)
    ensures Inv(RunOf(s, es))
  {
    hide InFlight;
    NothingInFlight(s.tasks);
    RunKeeps(s, es);
  }

  lemma {:induction false} RunKeeps(s: System, es: seq<Event>)
    requires Inv(s) && PossibleRun(s, es)
    ensures Inv(RunOf(s, es))
    decreases |es|
  {
    hide Inv, Next, Possible;
    if es != [] {
      StepKeeps(s, es[0]);
      RunKeeps(Next(s, es[0]), es[1..]);
    }
  }

  /** Each accepted letter exists exactly once: on its way, or received. */
  lemma ExactlyOnce(s: System, a: Letter)
    requires Inv(s) && a in s.accepted
    ensures InFlight(s.tasks)[a] + s.received[a] == 1
  {
    hide InFlight, Consistent, UniqueIds, NoMissedMeeting;
    assert s.accepted[a] == 1;
    assert (InFlight(s.tasks) + s.received)[a] == 1;
  }

  lemma {:induction false} CarriedInFlight(ts: seq<Task>, i: nat, m: Letter)
    requires i < |ts| && m in Carried(ts[i])
    ensures m in InFlight(ts)
  {
    hide Carried;
    if i > 0 {
      CarriedInFlight(ts[1..], i - 1, m);
    }
  }

  /** A receive that takes a waiting sender's letter, or the one parked with it, gets a letter
      addressed to it that nobody has received before; after a yield there always is one. */
  lemma ReceivedIsNew(s: System, cur: nat)
    requires Inv(s) && cur < |s.tasks| && s.tasks[cur].state == Running
    ensures s.tasks[cur].phase == Idle && Outlook(s.tasks, cur).FromSender? ==>
              var m := s.tasks[Outlook(s.tasks, cur).i].msg;
              m.to == s.tasks[cur].id && m in s.accepted &&
              s.received[m] == 0
    ensures s.tasks[cur].phase == Receiving ==>
              var m := s.tasks[cur].parked;
              s.tasks[cur].val != 0 && m.to == s.tasks[cur].id && m in s.accepted &&
              s.received[m] == 0
  {
    hide InFlight, FirstSender, UniqueIds, NoMissedMeeting;
    if s.tasks[cur].phase == Receiving {
      NotYetReceived(s, cur, s.tasks[cur].parked);
    }
    if s.tasks[cur].phase == Idle && Outlook(s.tasks, cur).FromSender? {
      var i := Outlook(s.tasks, cur).i;
      NotYetReceived(s, i, s.tasks[i].msg);
    }
  }

  lemma NotYetReceived(s: System, i: nat, m: Letter)
    requires Inv(s) && i < |s.tasks| && m in Carried(s.tasks[i])
    ensures m in s.accepted && s.received[m] == 0
  {
    hide InFlight, Consistent, UniqueIds, NoMissedMeeting, Carried;
    CarriedInFlight(s.tasks, i, m);
    ExactlyOnce(s, m);
  }

  /** A receive reports a message that nobody sent exactly when no sender waits and the task has
      blocked in a send since its flag was last cleared. */
  lemma StaleExactly(s: System, cur: nat)
    requires Inv(s) && Possible(s, Receive(cur))
    ensures Outlook(s.tasks, cur) == Left <==>
            s.residue[cur] && forall j :: 0 <= j < |s.tasks| ==> !WaitsFor(s.tasks[j], s.tasks[cur].id)
  {
    hide InFlight, UniqueIds, NoMissedMeeting;
  }

  /** The event makes task i wait in a send. */
  ghost predicate BlocksInSend(s: System, e: Event, i: nat)
    requires Possible(s, e)
  {
    e.Send? && e.cur == i && !Takes(s.tasks[e.dst], s.tasks[i].id)
  }

  ghost predicate NeverBlocks(s: System, es: seq<Event>, i: nat)
    requires PossibleRun(s, es)
    decreases |es|
  {
    es == [] || (!BlocksInSend(s, es[0], i) && NeverBlocks(Next(s, es[0]), es[1..], i))
  }

  /** A task that never blocks in a send only ever receives letters sent to it, each once. */
  lemma {:induction false} CleanReceiver(s: System, es: seq<Event>, i: nat)
    requires Inv(s) && PossibleRun(s, es) && i < |s.tasks| && !s.residue[i] && NeverBlocks(s, es, i)
    ensures var e := RunOf(s, es);
            Inv(e) && i < |e.tasks| && !e.residue[i] && (Possible(e, Receive(i)) ==> Outlook(e.tasks, i) != Left)
    decreases |es|
  {
    hide InFlight, Consistent, UniqueIds, NoMissedMeeting, Inv, FirstSender, Outlook;
    if es == [] {
      if Possible(s, Receive(i)) {
        StaleExactly(s, i);
      }
    } else {
      StepKeeps(s, es[0]);
      SizeKept(s, es[0]);
      CleanReceiver(Next(s, es[0]), es[1..], i);
    }
  }

  lemma SizeKept(s: System, e: Event)
    requires Possible(s, e)
    ensures |Next(s, e).tasks| == |s.tasks|
    ensures forall i :: 0 <= i < |s.tasks| && !s.residue[i] && !BlocksInSend(s, e, i) ==> !Next(s, e).residue[i]
  {
    hide FirstSender;
  }

  // ---------- what a task gets over a run ----------

  /** The letter that the event gives to a task of the given id: a receive gets that of a waiting
      sender, or the one left in its slot; after its yield, the one parked there. */
  ghost function GotNow(s: System, e: Event, id: nat): multiset<Letter>
    requires Possible(s, e)
  {
    match e
    case Receive(cur) =>
      if s.tasks[cur].id != id then multiset{} else
        (match Outlook(s.tasks, cur)
         case FromSender(i) => multiset{s.tasks[i].msg}
         case Left => multiset{s.tasks[cur].parked}
         case Blocks => multiset{})
    case Resume(cur) =>
      if s.tasks[cur].id == id && s.tasks[cur].phase == Receiving then multiset{s.tasks[cur].parked} else multiset{}
    case _ => multiset{}
  }

  /** The letter that it gives without there being one: what a flag left behind makes a receive
      take out of its slot. */
  ghost function StaleNow(s: System, e: Event, id: nat): multiset<Letter>
    requires Possible(s, e)
  {
    if e.Receive? && s.tasks[e.cur].id == id && Outlook(s.tasks, e.cur) == Left then multiset{s.tasks[e.cur].parked}
    else multiset{}
  }

  ghost function Got(s: System, es: seq<Event>, id: nat): multiset<Letter>
    requires PossibleRun(s, es)
    decreases |es|
  {
    if es == [] then multiset{} else GotNow(s, es[0], id) + Got(Next(s, es[0]), es[1..], id)
  }

  ghost function Stale(s: System, es: seq<Event>, id: nat): multiset<Letter>
    requires PossibleRun(s, es)
    decreases |es|
  {
    if es == [] then multiset{} else StaleNow(s, es[0], id) + Stale(Next(s, es[0]), es[1..], id)
  }

  /** How often letter a, if it is addressed to id, is in ms. */
  ghost function For(ms: multiset<Letter>, id: nat, a: Letter): nat { if a.to == id then ms[a] else 0 }

  lemma StepGot(s: System, e: Event, id: nat, a: Letter)
    requires Inv(s) && Possible(s, e)
    ensures For(s.received, id, a) + GotNow(s, e, id)[a] == For(Next(s, e).received, id, a) + StaleNow(s, e, id)[a]
  {
    hide InFlight, Inv, For, Next, GotNow, StaleNow, Possible;
    match e
    case Receive(cur) => ReceiveGot(s, cur, id, a);
    case Resume(cur) => ResumeGot(s, cur, id, a);
    case _ => OtherGot(s, e, id, a);
  }

  lemma ReceiveGot(s: System, cur: nat, id: nat, a: Letter)
    requires Inv(s) && Possible(s, Receive(cur))
    ensures var e := Receive(cur);
            For(s.received, id, a) + GotNow(s, e, id)[a] == For(Next(s, e).received, id, a) + StaleNow(s, e, id)[a]
  {
    hide InFlight, FirstSender, UniqueIds, NoMissedMeeting;
  }

  lemma ResumeGot(s: System, cur: nat, id: nat, a: Letter)
    requires Inv(s) && Possible(s, Resume(cur))
    ensures var e := Resume(cur);
            For(s.received, id, a) + GotNow(s, e, id)[a] == For(Next(s, e).received, id, a) + StaleNow(s, e, id)[a]
  {
    hide InFlight, FirstSender, UniqueIds, NoMissedMeeting;
  }

  lemma OtherGot(s: System, e: Event, id: nat, a: Letter)
    requires Possible(s, e) && !e.Receive? && !e.Resume?
    ensures For(s.received, id, a) + GotNow(s, e, id)[a] == For(Next(s, e).received, id, a) + StaleNow(s, e, id)[a]
  {
    hide FirstSender, For;
  }

  lemma {:induction false} RunGot(s: System, es: seq<Event>, id: nat, a: Letter)
    requires Inv(s) && PossibleRun(s, es)
    ensures For(s.received, id, a) + Got(s, es, id)[a] == For(RunOf(s, es).received, id, a) + Stale(s, es, id)[a]
    decreases |es|
  {
    hide Inv, Next, Possible, GotNow, StaleNow, For;
    if es != [] {
      StepGot(s, es[0], id, a);
      StepKeeps(s, es[0]);
      RunGot(Next(s, es[0]), es[1..], id, a);
    }
  }

  /** Over any run, what the tasks of an id got, with what is in flight to them, is what was accepted
      for them and what stale flags made up; so it is exactly what was accepted if and only if
      there was no stale receive. */
  lemma {:induction false} DeliveredExactly(s: System, es: seq<Event>, id: nat)
    requires Initial(s) && PossibleRun(s, es)
    ensures var e := RunOf(s, es);
            && (forall a :: Got(s, es, id)[a] + For(InFlight(e.tasks), id, a)
                            == For(e.accepted, id, a) + Stale(s, es, id)[a])
            && ((forall a :: Got(s, es, id)[a] + For(InFlight(e.tasks), id, a) == For(e.accepted, id, a))
                <==> Stale(s, es, id) == multiset{})
  {
    hide InFlight, Inv, Initial, For;
    StartInv(s);
    Reachable(s, es);
    var e := RunOf(s, es);
    forall a ensures Got(s, es, id)[a] + For(InFlight(e.tasks), id, a)
                     == For(e.accepted, id, a) + Stale(s, es, id)[a]
    {
      RunGot(s, es, id, a);
      Split(s, e, id, a);
    }
    if forall a :: Got(s, es, id)[a] + For(InFlight(e.tasks), id, a) == For(e.accepted, id, a) {
      forall a ensures Stale(s, es, id)[a] == 0 {
        assert Got(s, es, id)[a] + For(InFlight(e.tasks), id, a) == For(e.accepted, id, a);
      }
      assert Stale(s, es, id) == multiset{};
    }
  }

  lemma {:induction false} StartInv(s: System)
    requires Initial(s)
    ensures Inv(s)
  {
    hide InFlight;
    NothingInFlight(s.tasks);
  }

  lemma Split(s: System, e: System, id: nat, a: Letter)
    requires Initial(s) && Inv(e)
    ensures For(e.accepted, id, a) == For(InFlight(e.tasks), id, a) + For(e.received, id, a)
    ensures For(s.received, id, a) == 0
  {
    hide InFlight, Consistent, UniqueIds, NoMissedMeeting;
  }

  /** No task of the id waits in a send during the run. */
  ghost predicate NeverWaits(s: System, es: seq<Event>, id: nat)
    requires PossibleRun(s, es)
    decreases |es|
  {
    es == [] ||
    (!(es[0].Send? && s.tasks[es[0].cur].id == id && BlocksInSend(s, es[0], es[0].cur))
     && NeverWaits(Next(s, es[0]), es[1..], id))
  }

  ghost predicate NoResidue(s: System, id: nat) {
    forall j :: 0 <= j < |s.tasks| && s.tasks[j].id == id && s.tasks[j].state != Free ==> !s.residue[j]
  }

  /** Where no task of the id ever waits in a send, none of its receives is stale: over the run they
      get, each once, exactly the letters accepted for them but for those in flight. */
  lemma {:induction false} CleanDelivery(s: System, es: seq<Event>, id: nat)
    requires Initial(s) && PossibleRun(s, es) && NeverWaits(s, es, id)
    ensures forall a :: Got(s, es, id)[a] + For(InFlight(RunOf(s, es).tasks), id, a)
                        == For(RunOf(s, es).accepted, id, a) <= 1
  {
    hide InFlight, Inv, For;
    StartInv(s);
    NothingStale(s, es, id);
    DeliveredExactly(s, es, id);
    Reachable(s, es);
    forall a ensures For(RunOf(s, es).accepted, id, a) <= 1 {
      AtMostOnce(RunOf(s, es), id, a);
    }
  }

  lemma AtMostOnce(s: System, id: nat, a: Letter)
    requires Inv(s)
    ensures For(s.accepted, id, a) <= 1
  {
    hide InFlight, Consistent, UniqueIds, NoMissedMeeting;
  }

  lemma {:induction false} NothingStale(s: System, es: seq<Event>, id: nat)
    requires Inv(s) && PossibleRun(s, es) && NoResidue(s, id) && NeverWaits(s, es, id)
    ensures Stale(s, es, id) == multiset{}
    decreases |es|
  {
    hide Inv, Next, Possible, BlocksInSend, NoResidue;
    if es != [] {
      StepKeeps(s, es[0]);
      StepClean(s, es[0], id);
      NothingStale(Next(s, es[0]), es[1..], id);
    }
  }

  lemma StepClean(s: System, e: Event, id: nat)
    requires Inv(s) && Possible(s, e) && NoResidue(s, id)
    requires !(e.Send? && s.tasks[e.cur].id == id && BlocksInSend(s, e, e.cur))
    ensures NoResidue(Next(s, e), id) && StaleNow(s, e, id) == multiset{}
  {
    hide Inv, NoResidue, Next, BlocksInSend, StaleNow;
    ResidueClean(s, e, id);
    NotStale(s, e, id);
  }

  lemma NotStale(s: System, e: Event, id: nat)
    requires Inv(s) && Possible(s, e) && NoResidue(s, id)
    ensures StaleNow(s, e, id) == multiset{}
  {
    hide Inv, FirstSender, Outlook;
    if e.Receive? {
      StaleExactly(s, e.cur);
    }
  }

  lemma ResidueClean(s: System, e: Event, id: nat)
    requires Possible(s, e) && NoResidue(s, id)
    requires !(e.Send? && s.tasks[e.cur].id == id && BlocksInSend(s, e, e.cur))
    ensures NoResidue(Next(s, e), id)
  {
    hide NoResidue, Next, BlocksInSend, Possible;
    var s' := Next(s, e);
    SizeKept(s, e);
    forall j | 0 <= j < |s'.tasks| && s'.tasks[j].id == id && s'.tasks[j].state != Free ensures !s'.residue[j] {
      SlotClean(s, e, id, j);
    }
    assert NoResidue(s', id) by {
      AllClean(s', id);
    }
  }

  lemma AllClean(s: System, id: nat)
    requires forall j :: 0 <= j < |s.tasks| && s.tasks[j].id == id && s.tasks[j].state != Free ==> !s.residue[j]
    ensures NoResidue(s, id)
  {
  }

  lemma SlotClean(s: System, e: Event, id: nat, j: nat)
    requires Possible(s, e) && NoResidue(s, id) && j < |s.tasks| && j < |Next(s, e).tasks|
    requires !(e.Send? && s.tasks[e.cur].id == id && BlocksInSend(s, e, e.cur))
    requires Next(s, e).tasks[j].id == id && Next(s, e).tasks[j].state != Free
    ensures !Next(s, e).residue[j]
  {
    hide FirstSender;
  }

  /** A task blocks in a send, is received from, and then receives a letter that was never sent:
      the flag its own send left behind. */
  lemma StaleExample()
    ensures exists s, es, cur ::
              Initial(s) && PossibleRun(s, es) && Possible(RunOf(s, es), Receive(cur)) &&
                  Outlook(RunOf(s, es).tasks, cur) == Left
  {
    var none := Letter(0, 0, 0, 0);
    var m := Letter(1, 20, 1, 7);
    var a := Task(Running, 10, 0, 0, none, none, Idle);
    var b := Task(Running, 20, 0, 0, none, none, Idle);
    var s0: System := SystemData([a, b], multiset{}, multiset{}, [false, false]);
    var e0, e1, e2, e3 := Send(0, 1, m), Receive(1), Schedule(0), Resume(0);
    var a1 := Waiting(a, 20, m);
    var s1 := Next(s0, e0);
    assert s1.tasks == [a1, b];
    var s2 := Next(s1, e1);
    assert FirstSender(s1.tasks, 20, 0) == 0;
    var a2 := a1.(state := Ready);
    assert s2.tasks == [a2, b];
    var s3 := Next(s2, e2);
    var a3 := a2.(state := Running);
    assert s3.tasks == [a3, b];
    var s4 := Next(s3, e3);
    var a4 := a3.(phase := Idle);
    assert s4.tasks == [a4, b];
    assert FirstSender(s4.tasks, 10, 2) == 2;
    assert FirstSender(s4.tasks, 10, 1) == 2;
    assert FirstSender(s4.tasks, 10, 0) == 2;
    RunOfFour(s0, e0, e1, e2, e3);
    assert Possible(RunOf(s0, [e0, e1, e2, e3]), Receive(0));
  }

  lemma RunOfFour(s: System, e0: Event, e1: Event, e2: Event, e3: Event)
    requires Possible(s, e0) && Possible(Next(s, e0), e1) && Possible(Next(Next(s, e0), e1), e2)
    requires Possible(Next(Next(Next(s, e0), e1), e2), e3)
    ensures PossibleRun(s, [e0, e1, e2, e3])
    ensures RunOf(s, [e0, e1, e2, e3]) == Next(Next(Next(Next(s, e0), e1), e2), e3)
  {
    hide Possible, Next;
    var s1 := Next(s, e0);
    var s2 := Next(s1, e1);
    var s3 := Next(s2, e2);
    RunOfOne(s3, e3);
    RunOfMore(s2, e2, [e3]);
    RunOfMore(s1, e1, [e2, e3]);
    RunOfMore(s, e0, [e1, e2, e3]);
    assert [e2] + [e3] == [e2, e3] && [e1] + [e2, e3] == [e1, e2, e3] && [e0] + [e1, e2, e3] == [e0, e1, e2, e3];
  }

  lemma RunOfOne(s: System, e: Event)
    requires Possible(s, e)
    ensures PossibleRun(s, [e]) && RunOf(s, [e]) == Next(s, e)
  {
    hide Possible, Next;
    assert [e][1..] == [];
  }

  lemma RunOfMore(s: System, e: Event, es: seq<Event>)
    requires Possible(s, e) && PossibleRun(Next(s, e), es)
    ensures PossibleRun(s, [e] + es) && RunOf(s, [e] + es) == RunOf(Next(s, e), es)
  {
    hide Possible, Next;
    assert ([e] + es)[1..] == es;
  }
}
