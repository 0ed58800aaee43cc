/** The IPC calls as the kernel runs them on its task table, behind the capability check; each
    computes the step of the transition system. */
module IpcCalls {
  import opened Options
  import opened Ipc
  import Caps

  /** The first taken slot with a given task id, or the number of slots. */
  function SlotWith(ts: seq<Task>, id: nat, from: nat): (k: nat)
    requires from <= |ts|
    ensures from <= k <= |ts| && (k < |ts| ==> ts[k].id == id && ts[k].state != Free)
    ensures forall j :: from <= j < k ==> !(ts[j].id == id && ts[j].state != Free)
    decreases |ts| - from
  {
    if from == |ts| || (ts[from].id == id && ts[from].state != Free) then from else SlotWith(ts, id, from + 1)
  }

  /** The capability lets its holder do what right says with an IPC target. */
  predicate Permits(c: Caps.Cap, right: Caps.Rights) { c.kind == Caps.IPC_TARGET && c.rights & right != 0 }

  /** The error of the capability check, or OK. */
  function Checked(cap: Option<Caps.Cap>, right: Caps.Rights): int {
    if cap.None? then Caps.BAD_CAP else if !Permits(cap.value, right) then Caps.DENIED else Caps.OK
  }

  class IpcKernel {
    var tasks: seq<Task>
    /** PENDING: the slot for a message to oneself; kind 0 is none. */
    var self: seq<Letter>

    ghost predicate Valid()
      reads this
    {
      |self| == |tasks|
    }

    /** send_with_cap up to its yield. */
    method SendWithCap(cur: nat, cap: Option<Caps.Cap>, m: Letter) returns (r: int)
      requires Valid() && cur < |tasks|
      modifies this
      ensures Valid()
      ensures Checked(cap, Caps.SEND_RIGHT) != Caps.OK ==>
              r == Checked(cap, Caps.SEND_RIGHT) && tasks == old(tasks) && self == old(self)
      ensures Checked(cap, Caps.SEND_RIGHT) == Caps.OK ==>
                var dst := SlotWith(old(tasks), cap.value.server, 0);
                (dst == |old(tasks)| ==> r == Caps.NO_SERVER && tasks == old(tasks) && self == old(self)) &&
                (dst == cur ==> r == Caps.OK && tasks == old(tasks) && self == old(self)[cur := m]) &&
                (dst < |old(tasks)| && dst != cur ==>
                 r == Caps.OK && tasks == AfterSend(old(tasks), cur, dst, m) && self == old(self))
      // the answers: no capability, none of kind 1 with bit 0, no such task, or done
      ensures r == -1 <==> cap.None?
      ensures r == -5 <==> cap.Some? && !(cap.value.kind == 1 && cap.value.rights & 0x1 != 0)
      ensures r == -2 <==>
              cap.Some? && cap.value.kind == 1 && cap.value.rights & 0x1 != 0 &&
              forall k :: 0 <= k < |old(tasks)| ==>
              !(old(tasks)[k].id == cap.value.server && old(tasks)[k].state != Free)
      ensures r == 0 || r == -1 || r == -2 || r == -5
    {
      hide SlotWith;
      if cap.None? {
        return Caps.BAD_CAP;
      }
      if cap.value.kind != Caps.IPC_TARGET || cap.value.rights & Caps.SEND_RIGHT == 0 {
        return Caps.DENIED;
      }
      var target := cap.value.server;
      var curId := tasks[cur].id;
      var dst := FindSlot(target);
      if dst == |tasks| {
        return Caps.NO_SERVER;
      }
      if dst == cur {
        self := self[cur := m];
        return Caps.OK;
      }
      if tasks[dst].state == BlockedRecv && (tasks[dst].partner == curId || tasks[dst].partner == ANY_PARTNER) {
        var t := tasks[dst].(state := Ready);
        // deliver_message
        t := t.(partner := curId);
        t := t.(parked := m);
        t := t.(val := 1);
        tasks := tasks[dst := t];
        return Caps.OK;
      }
      var t := tasks[cur].(state := BlockedSend);
      t := t.(partner := target);
      t := t.(msg := m);
      t := t.(val := 1, phase := Sending);
      tasks := tasks[cur := t];
      return Caps.OK;
    }

    method FindSlot(id: nat) returns (k: nat)
      ensures k == SlotWith(tasks, id, 0)
    {
      k := 0;
      while k < |tasks|
        invariant 0 <= k <= |tasks| && SlotWith(tasks, id, 0) == SlotWith(tasks, id, k)
      {
        if tasks[k].id == id && tasks[k].state != Free {
          return;
        }
        k := k + 1;
      }
    }

    /** recv_with_cap up to its yield: a letter, or none when the task blocks. */
    method RecvWithCap(cur: nat, cap: Option<Caps.Cap>) returns (r: int, got: Option<Letter>)
      requires Valid() && cur < |tasks|
      modifies this
      ensures Valid()
      ensures Checked(cap, Caps.RECV_RIGHT) != Caps.OK ==>
              r == Checked(cap, Caps.RECV_RIGHT) && got == None && tasks == old(tasks) && self == old(self)
      ensures Checked(cap, Caps.RECV_RIGHT) == Caps.OK && old(self)[cur].kind != 0 ==>
                r == Caps.OK && got == Some(old(self)[cur]) && tasks == old(tasks) &&
                self == old(self)[cur := NoLetter()]
      ensures Checked(cap, Caps.RECV_RIGHT) == Caps.OK && old(self)[cur].kind == 0 ==>
                r == Caps.OK && self == old(self) && tasks == AfterRecv(old(tasks), cur) &&
                got == Taken(old(tasks), cur)
      // the answers: no capability, none of kind 1 with bit 1, or done
      ensures r == -1 <==> cap.None?
      ensures r == -5 <==> cap.Some? && !(cap.value.kind == 1 && cap.value.rights & 0x2 != 0)
      ensures r == 0 <==> cap.Some? && cap.value.kind == 1 && cap.value.rights & 0x2 != 0
      ensures self != old(self) ==> self[cur] == Letter(0, 0, 0, 0)
      ensures r == 0 && got.None? ==> tasks[cur].state == BlockedRecv && tasks[cur].partner == 0
    {
      hide FirstSender;
      if cap.None? {
        return Caps.BAD_CAP, None;
      }
      if cap.value.kind != Caps.IPC_TARGET || cap.value.rights & Caps.RECV_RIGHT == 0 {
        return Caps.DENIED, None;
      }
      r := Caps.OK;
      var curId := tasks[cur].id;
      if self[cur].kind != 0 {
        got := Some(self[cur]);
        self := self[cur := NoLetter()];
        return;
      }
      for i := 0 to |tasks|
        invariant tasks == old(tasks) && self == old(self)
        invariant forall j :: 0 <= j < i ==> !WaitsFor(tasks[j], curId)
      {
        if tasks[i].state == BlockedSend && tasks[i].partner == curId {
          FirstIs(tasks, curId, i);
          got := Some(tasks[i].msg);
          tasks := tasks[i := tasks[i].(state := Ready)];
          return;
        }
      }
      FirstIs(tasks, curId, |tasks|);
      if tasks[cur].val != 0 {
        got := Some(tasks[cur].parked);
        tasks := tasks[cur := tasks[cur].(val := 0)];
        return;
      }
      tasks := tasks[cur := tasks[cur].(state := BlockedRecv, partner := ANY_PARTNER, phase := Receiving)];
      got := None;
    }

    /** The rest of recv_with_cap once the task runs again. */
    method ResumeRecv(cur: nat) returns (r: int, got: Option<Letter>)
      requires Valid() && cur < |tasks| && tasks[cur].phase == Receiving
      modifies this`tasks
      ensures Valid()
      ensures tasks == old(tasks)[cur := AfterResume(old(tasks)[cur])]
      ensures if old(tasks)[cur].val != 0 then r == 0 && got == Some(old(tasks)[cur].parked)
              else r == -3 && got == None
    {
      if tasks[cur].val != 0 {
        got := Some(tasks[cur].parked);
        r := Caps.OK;
        tasks := tasks[cur := tasks[cur].(val := 0, phase := Idle)];
      } else {
        got := None;
        r := Caps.TIMEOUT;
        tasks := tasks[cur := tasks[cur].(phase := Idle)];
      }
    }
  }

  function NoLetter(): Letter { Letter(0, 0, 0, 0) }

  /** The letter that a receive hands over before any yield. */
  function Taken(ts: seq<Task>, cur: nat): Option<Letter>
    requires cur < |ts|
  {
    match Outlook(ts, cur)
    case FromSender(i) => Some(ts[i].msg)
    case Left => Some(ts[cur].parked)
    case Blocks => None
  }

  lemma FirstIs(ts: seq<Task>, id: nat, i: nat)
    requires i <= |ts| && (i < |ts| ==> WaitsFor(ts[i], id)) && forall j :: 0 <= j < i ==> !WaitsFor(ts[j], id)
    ensures FirstSender(ts, id, 0) == i
  {
    var k := FirstSender(ts, id, 0);
  }

  /** In every reachable state a receive that blocked never times out, and what it then gets is a
      letter sent to it. */
  lemma NoTimeout(s: System, cur: nat)
    requires Inv(s) && cur < |s.tasks| && s.tasks[cur].state == Running && s.tasks[cur].phase == Receiving
    ensures s.tasks[cur].val != 0 && s.tasks[cur].parked.to == s.tasks[cur].id && s.tasks[cur].parked in s.accepted
  {
    hide Inv, FirstSender;
    ReceivedIsNew(s, cur);
  }
}
