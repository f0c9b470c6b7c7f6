/** Message passing and context switches over whole runs, by way of a history of what happened. */
module KernelMessages {
  import opened Words
  import opened Layout
  import opened KernelModel
  import opened KernelRuns

  /** A message, and the process whose syscall area it goes to. */
  datatype Delivery = Delivery(to: int, msg: Message)

  /** For each pid: the sends the kernel accepted, the deliveries observed in some receiver's syscall area, the
      message delivered to it since it last ran, and the context at its last trap. */
  datatype History = History(sent: int -> seq<Delivery>, delivered: int -> seq<Delivery>, inbox: int -> Option<Message>, trapped: int -> Option<Context>)

  ghost function NoteSent(h: History, pid: int, d: Delivery): (h': History) {
    h.(sent := At(h.sent, pid, h.sent(pid) + [d]))
  }

  /** A delivery is what the receiver's syscall area shows. */
  ghost function NoteDelivered(h: History, pid: int, to: int, calls: int -> Syscall): (h': History) {
    h.(delivered := At(h.delivered, pid, h.delivered(pid) + [Delivery(to, calls(to).msg)]), inbox := At(h.inbox, to, Some(calls(to).msg)))
  }

  /** The history once `proc_send` of state `x` is ready to yield in state `y`. */
  ghost function NoteSend(x: State, y: State, h: History): (h': History)
    requires Shape(x) && SlotOfPid(x.procs, x.calls(x.vm).msg.receiver) < |x.procs|
  {
    var me, to := x.procs[x.curr].pid, x.calls(x.vm).msg.receiver;
    var h1 := NoteSent(h, me, Delivery(to, x.calls(x.vm).msg.(sender := me)));
    if x.procs[SlotOfPid(x.procs, to)].status == WaitToRecv then NoteDelivered(h1, me, to, y.calls) else h1
  }

  ghost function NoteRecv(x: State, y: State, h: History): (h': History)
    requires Shape(x)
  {
    var me := x.procs[x.curr].pid;
    var i := LastWaiting(x.procs, me, |x.procs|);
    if i == -1 then h else NoteDelivered(h, x.procs[i].pid, me, y.calls)
  }

  // ---- The history invariant ----

  ghost predicate LogOk(p: Process, calls: int -> Syscall, h: History) {
    && (p.status == WaitToSend ==>
          && h.sent(p.pid) == h.delivered(p.pid) + [Delivery(p.receiver, calls(p.pid).msg)]
          && calls(p.pid).msg.sender == p.pid && calls(p.pid).retval == 0)
    && (p.status == Unused ==> h.delivered(p.pid) <= h.sent(p.pid) && |h.sent(p.pid)| <= |h.delivered(p.pid)| + 1)
    && (p.status != WaitToSend && p.status != Unused ==> h.sent(p.pid) == h.delivered(p.pid))
    && (h.inbox(p.pid).Some? && p.status != Unused ==>
          && (p.status == Running || p.status == Runnable)
          && calls(p.pid).msg == h.inbox(p.pid).value)
    && (p.status == Runnable || p.status == WaitToSend || p.status == WaitToRecv ==> h.trapped(p.pid) == Some(p.context))
  }

  ghost predicate LogsOk(procs: seq<Process>, calls: int -> Syscall, h: History) {
    forall i :: 0 <= i < |procs| && procs[i].pid != 0 ==> LogOk(procs[i], calls, h)
  }

  /** Pids not handed out yet have no history. */
  ghost predicate FreshOk(nprocs: nat, h: History) {
    forall pid: int :: pid > nprocs ==> h.sent(pid) == [] && h.delivered(pid) == [] && h.inbox(pid) == None
  }

  ghost predicate MidHist(y: State, h: History) {
    && MidInv(y) && LogsOk(y.procs, y.calls, h) && FreshOk(y.nprocs, h)
    && h.trapped(y.procs[y.curr].pid) == Some(y.procs[y.curr].context)
  }

  ghost predicate HistInv(s: State, h: History) {
    && Inv(s) && LogsOk(s.procs, s.calls, h) && FreshOk(s.nprocs, h)
    && h.inbox(s.procs[s.curr].pid) == None
  }

  /** The process about to run has seen its inbox. */
  ghost function NoteRuns(h: History, pid: int): (h': History) { h.(inbox := At(h.inbox, pid, None)) }

  /** A process resumes: where it trapped, or at its entry point; with the message delivered to it, if any. */
  ghost predicate Resumes(was: Process, h: History, s: State)
    requires Shape(s)
  {
    var p := s.procs[s.curr];
    && p.pid == was.pid
    && (was.status == Ready ==>
          && p.context.mepc == APPS_ENTRY && p.context.regs[REG_A0] == APPS_ARG && p.context.regs[REG_A1] == APPS_ARG + 4
          && forall k :: 0 <= k < NREGS && k != REG_A0 && k != REG_A1 ==> p.context.regs[k] == was.context.regs[k])
    && (was.status != Ready ==> h.trapped(p.pid) == Some(p.context))
    && (h.inbox(p.pid).Some? ==> s.calls(p.pid).msg == h.inbox(p.pid).value)
  }

  lemma YieldHist(y: State, h: History)
    requires MidHist(y, h) && Yield(y).Go?
    ensures var s := Yield(y).s;
            && HistInv(s, NoteRuns(h, s.procs[s.curr].pid))
            && Resumes(y.procs[s.curr], h, s)
  {
    hide PidsOk, NoLostRendezvous, Yield;
    YieldEffect(y);
    YieldInv(y);
    var s := Yield(y).s;
    var h' := NoteRuns(h, s.procs[s.curr].pid);
    forall i | 0 <= i < |s.procs| && s.procs[i].pid != 0 ensures LogOk(s.procs[i], s.calls, h') {
      assert LogOk(y.procs[i], y.calls, h);
      if i != s.curr {
        DistinctPids(s, i, s.curr);
      }
    }
  }

  lemma DistinctPids(s: State, i: nat, j: nat)
    requires MidInv(s) && i < MAX_NPROCESS && j < MAX_NPROCESS && i != j && s.procs[i].pid != 0
    ensures s.procs[i].pid != s.procs[j].pid
  {
  }

  lemma PidBound(s: State, i: nat)
    requires MidInv(s) && i < MAX_NPROCESS
    ensures s.procs[i].pid <= s.nprocs
  {
  }

  /** The sender blocks: its message stays in its own syscall area. */
  lemma SendBlocksHist(x: State, h: History)
    requires HistInv(x, h) && SlotOfPid(x.procs, x.calls(x.vm).msg.receiver) < |x.procs|
    requires h.trapped(x.procs[x.curr].pid) == Some(x.procs[x.curr].context) && x.calls(x.vm).retval == 0
    requires x.procs[SlotOfPid(x.procs, x.calls(x.vm).msg.receiver)].status != WaitToRecv
    ensures MidHist(BeforeYieldSend(x), NoteSend(x, BeforeYieldSend(x), h))
  {
    hide PidsOk, NoLostRendezvous, Yield, SlotOfPid;
    BeforeYieldSendInv(x);
    PidBound(x, x.curr);
    var y := BeforeYieldSend(x);
    var h' := NoteSend(x, y, h);
    forall i | 0 <= i < |y.procs| && y.procs[i].pid != 0 ensures LogOk(y.procs[i], y.calls, h') {
      assert LogOk(x.procs[i], x.calls, h);
      if i != x.curr {
        DistinctPids(x, i, x.curr);
      }
    }
  }

  /** The receiver is waiting: the message is in its syscall area before it runs. */
  lemma SendHandsOverHist(x: State, h: History, r: nat)
    requires HistInv(x, h) && r == SlotOfPid(x.procs, x.calls(x.vm).msg.receiver) < |x.procs|
    requires h.trapped(x.procs[x.curr].pid) == Some(x.procs[x.curr].context)
    requires x.procs[r].status == WaitToRecv
    ensures MidHist(BeforeYieldSend(x), NoteSend(x, BeforeYieldSend(x), h))
  {
    hide PidsOk, NoLostRendezvous, Yield, SlotOfPid;
    BeforeYieldSendInv(x);
    PidBound(x, x.curr);
    PidBound(x, r);
    PidOfUsed(x, r);
    Wake(x.procs, x.nprocs, r);
    var y := BeforeYieldSend(x);
    var h' := NoteSend(x, y, h);
    forall i | 0 <= i < |y.procs| && y.procs[i].pid != 0 ensures LogOk(y.procs[i], y.calls, h') {
      assert LogOk(x.procs[i], x.calls, h);
      if i != x.curr {
        DistinctPids(x, i, x.curr);
      }
      if i != r {
        DistinctPids(x, i, r);
      }
    }
  }

  lemma RecvHist(x: State, h: History)
    requires HistInv(x, h)
    requires h.trapped(x.procs[x.curr].pid) == Some(x.procs[x.curr].context)
    ensures MidHist(BeforeYieldRecv(x), NoteRecv(x, BeforeYieldRecv(x), h))
  {
    hide PidsOk, NoLostRendezvous, Yield;
    BeforeYieldRecvInv(x);
    PidBound(x, x.curr);
    var y := BeforeYieldRecv(x);
    var h' := NoteRecv(x, y, h);
    var w := LastWaiting(x.procs, x.procs[x.curr].pid, |x.procs|);
    if w >= 0 {
      PidBound(x, w);
      PidOfUsed(x, w);
      Wake(x.procs, x.nprocs, w);
    }
    forall i | 0 <= i < |y.procs| && y.procs[i].pid != 0 ensures LogOk(y.procs[i], y.calls, h') {
      assert LogOk(x.procs[i], x.calls, h);
      if i != x.curr {
        DistinctPids(x, i, x.curr);
      }
      if w >= 0 && i != w {
        DistinctPids(x, i, w);
      }
    }
  }

  // ---- Steps and runs ----

  ghost function NoteTrap(h: History, pid: int, cpu: Context): (h': History) { h.(trapped := At(h.trapped, pid, Some(cpu))) }

  /** The history when the entry of state `s` is about to yield in state `y`. */
  ghost function NoteLeave(s: State, id: int, y: State, h: History): (h': History)
    requires Shape(s)
  {
    var x := Taken(Saved(s));
    if id != INTR_ID_SOFT then h
    else if s.calls(s.vm).kind == SYS_RECV then NoteRecv(x, y, h)
    else if SlotOfPid(x.procs, x.calls(x.vm).msg.receiver) < |x.procs| then NoteSend(x, y, h)
    else h
  }

  /** The history after one event. */
  ghost function Note(s: State, e: Event, h: History): (h': History)
    requires Shape(s)
  {
    if !e.Trap? then h else
      var s0 := s.(cpu := e.cpu);
      var h0 := NoteTrap(h, s.procs[s.curr].pid, e.cpu);
      match PhaseOf(s0, e.id, e.ctrlC)
      case Stop => h0
      case Stay(_) => h0
      case Leave(y) =>
        var h1 := NoteLeave(s0, e.id, y, h0);
        if Shape(y) && Yield(y).Go? then NoteRuns(h1, Yield(y).s.procs[Yield(y).s.curr].pid) else h1
  }

  lemma SavedHist(s: State, h: History)
    requires HistInv(s, h)
    ensures var h0 := NoteTrap(h, s.procs[s.curr].pid, s.cpu);
            && HistInv(Saved(s), h0) && HistInv(Taken(Saved(s)), h0) && HistInv(Refused(Taken(Saved(s))), h0)
            && h0.trapped(s.procs[s.curr].pid) == Some(Saved(s).procs[s.curr].context)
  {
    hide PidsOk, NoLostRendezvous;
    SavedInv(s);
    var h0 := NoteTrap(h, s.procs[s.curr].pid, s.cpu);
    forall i | 0 <= i < |s.procs| && s.procs[i].pid != 0
      ensures LogOk(Saved(s).procs[i], s.calls, h0)
      ensures LogOk(Saved(s).procs[i], Taken(Saved(s)).calls, h0)
      ensures LogOk(Saved(s).procs[i], Refused(Taken(Saved(s))).calls, h0)
    {
      assert LogOk(s.procs[i], s.calls, h);
      if i != s.curr {
        DistinctPids(s, i, s.curr);
      }
    }
  }

  lemma LeaveHist(s: State, id: int, ctrlC: bool, h: History)
    requires HistInv(s, h) && PhaseOf(s, id, ctrlC).Leave?
    ensures var y := PhaseOf(s, id, ctrlC).y;
            MidHist(y, NoteLeave(s, id, y, NoteTrap(h, s.procs[s.curr].pid, s.cpu)))
  {
    hide PidsOk, NoLostRendezvous, Yield, BeforeYieldRecv, BeforeYieldSend, NoteSend, NoteRecv;
    SavedHist(s, h);
    var x, h0 := Taken(Saved(s)), NoteTrap(h, s.procs[s.curr].pid, s.cpu);
    if id == INTR_ID_SOFT {
      if s.calls(s.vm).kind == SYS_RECV {
        RecvHist(x, h0);
      } else if x.procs[SlotOfPid(x.procs, x.calls(x.vm).msg.receiver)].status == WaitToRecv {
        SendHandsOverHist(x, h0, SlotOfPid(x.procs, x.calls(x.vm).msg.receiver));
      } else {
        SendBlocksHist(x, h0);
      }
    }
  }

  /** Whoever runs after a trap goes on where it trapped, or starts at its entry point, and finds its message. */
  ghost predicate ResumesAfter(s: State, e: Event, h: History, s': State)
    requires Shape(s) && Shape(s') && e.Trap?
  {
    && s'.cpu == s'.procs[s'.curr].context
    && match PhaseOf(s.(cpu := e.cpu), e.id, e.ctrlC)
       case Stop => false
       case Stay(_) => s'.curr == s.curr && s'.cpu == e.cpu
       case Leave(y) =>
         var h1 := NoteLeave(s.(cpu := e.cpu), e.id, y, NoteTrap(h, s.procs[s.curr].pid, e.cpu));
         s'.curr < |y.procs| && Resumes(y.procs[s'.curr], h1, s')
  }

  lemma TrapHist(s: State, e: Event, h: History)
    requires HistInv(s, h) && e.Trap? && Do(s, e).Go?
    ensures HistInv(Do(s, e).s, Note(s, e, h))
    ensures ResumesAfter(s, e, h, Do(s, e).s)
  {
    hide PidsOk, NoLostRendezvous, Yield, Interrupt, NoteLeave, LogsOk;
    var s0 := s.(cpu := e.cpu);
    assert HistInv(s0, h);
    EntryByPhase(s0, e.id, e.ctrlC);
    SavedHist(s0, h);
    match PhaseOf(s0, e.id, e.ctrlC)
    case Stop =>
    case Stay(x) =>
    case Leave(y) =>
      LeaveHist(s0, e.id, e.ctrlC, h);
      YieldHist(y, NoteLeave(s0, e.id, y, NoteTrap(h, s.procs[s.curr].pid, e.cpu)));
  }

  lemma StepHist(s: State, e: Event, h: History)
    requires HistInv(s, h) && Enabled(s, e) && Do(s, e).Go?
    ensures HistInv(Do(s, e).s, Note(s, e, h))
  {
    hide PidsOk, NoLostRendezvous, Yield, KernelEntry;
    StepInv(s, e);
    if e.Trap? {
      TrapHist(s, e, h);
    } else {
      var s' := Do(s, e).s;
      forall i | 0 <= i < |s'.procs| && s'.procs[i].pid != 0 ensures LogOk(s'.procs[i], s'.calls, h) {
        if s.procs[i].pid != 0 {
          assert LogOk(s.procs[i], s.calls, h);
        }
        if i != s.curr {
          DistinctPids(s', i, s.curr);
        }
      }
    }
  }

  ghost function NoHistory(): (h: History) { History((p: int) => [], (p: int) => [], (p: int) => None, (p: int) => None) }

  ghost function HistoryAt(ss: seq<State>, es: seq<Event>, n: nat): (h: History)
    requires IsRun(ss, es) && n <= |es|
  {
    if n == 0 then NoHistory() else Note(ss[n - 1], es[n - 1], HistoryAt(ss, es, n - 1))
  }

  lemma BootHist(s: State)
    requires Boot(s)
    ensures HistInv(s, NoHistory())
  {
  }

  lemma {:induction false} RunHist(ss: seq<State>, es: seq<Event>, n: nat)
    requires IsRun(ss, es) && n <= |es|
    ensures HistInv(ss[n], HistoryAt(ss, es, n))
  {
    hide HistInv, Note, Do, Enabled, Boot;
    if n == 0 {
      BootHist(ss[0]);
    } else {
      RunHist(ss, es, n - 1);
      assert Do(ss[n - 1], es[n - 1]) == Go(ss[n - 1 + 1]);
      StepHist(ss[n - 1], es[n - 1], HistoryAt(ss, es, n - 1));
    }
  }

  /** Messages carry the pid of the process that sent them. */
  ghost predicate Stamped(h: History) {
    forall pid: int, k :: 0 <= k < |h.sent(pid)| ==> h.sent(pid)[k].msg.sender == pid
  }

  lemma NoteStamped(s: State, e: Event, h: History)
    requires Shape(s) && Stamped(h)
    ensures Stamped(Note(s, e, h))
  {
    hide PhaseOf, Yield, SlotOfPid, LastWaiting;
  }

  lemma {:induction false} RunStamped(ss: seq<State>, es: seq<Event>, n: nat)
    requires IsRun(ss, es) && n <= |es|
    ensures Stamped(HistoryAt(ss, es, n))
  {
    hide Note, Do, Enabled, Boot;
    if n > 0 {
      RunStamped(ss, es, n - 1);
      assert Do(ss[n - 1], es[n - 1]) == Go(ss[n - 1 + 1]);
      NoteStamped(ss[n - 1], es[n - 1], HistoryAt(ss, es, n - 1));
    }
  }

  // ---- Nothing but deliveries ----

  /** The history notes one more delivery, of `msg` to `q`. */
  ghost predicate DeliveredTo(h: History, h': History, q: int, msg: Message) {
    exists p: int :: h'.delivered(p) == h.delivered(p) + [Delivery(q, msg)]
  }

  /** The history notes a delivery to `q`. */
  ghost predicate GotMessage(h: History, h': History, q: int) { exists msg: Message :: DeliveredTo(h, h', q, msg) }

  ghost predicate AtMostOneDelivery(h: History, h': History) {
    forall p: int, p': int :: h'.delivered(p) != h.delivered(p) && h'.delivered(p') != h.delivered(p') ==> p == p'
  }

  /** Apart from its own process, a step changes syscall areas only by the delivery it notes, and a wait to receive ends
      exactly with a delivery. */
  ghost predicate OnlyDelivers(s: State, h: History, s': State, h': History)
    requires Shape(s) && Shape(s')
  {
    && AtMostOneDelivery(h, h')
    && (forall q: int :: q != s.procs[s.curr].pid ==>
          && h'.sent(q) == h.sent(q)
          && s'.calls(q) == s.calls(q).(msg := s'.calls(q).msg)
          && (s'.calls(q).msg == s.calls(q).msg || DeliveredTo(h, h', q, s'.calls(q).msg)))
    && (forall i :: 0 <= i < MAX_NPROCESS && s.procs[i].status == WaitToRecv ==>
          || s'.procs[i].status == WaitToRecv || s'.procs[i].status == Unused
          || DeliveredTo(h, h', s.procs[i].pid, s'.calls(s.procs[i].pid).msg))
    && forall q: int :: q != s.procs[s.curr].pid && GotMessage(h, h', q) ==> WaitEnds(s, s', q)
  }

  ghost predicate WaitEnds(s: State, s': State, q: int)
    requires Shape(s) && Shape(s')
  {
    exists i :: 0 <= i < MAX_NPROCESS && s.procs[i].pid == q && s.procs[i].status == WaitToRecv && s'.procs[i].status != WaitToRecv
  }

  /** What a system call leaves in the type and the return value; a send may yet turn the latter into -1. */
  ghost predicate CallTaken(call: int, area: Syscall, area': Syscall) {
    if call == SYS_RECV then area'.kind == SYS_UNUSED && area'.retval == 0
    else if call == SYS_SEND then area'.kind == SYS_UNUSED
    else area'.kind == area.kind && area'.retval == area.retval
  }

  /** The process that made system call `call`, if any: its message changes only by the stamp of its own pid or by
      a delivery, a call to receive ends with a delivery or in a wait, and a call is taken out of the area. */
  ghost predicate OwnArea(s: State, call: int, h: History, s': State, h': History)
    requires Shape(s) && Shape(s')
  {
    var me := s.procs[s.curr].pid;
    && (|| s'.calls(me).msg == s.calls(me).msg || s'.calls(me).msg == s.calls(me).msg.(sender := me)
        || DeliveredTo(h, h', me, s'.calls(me).msg))
    && (call == SYS_RECV ==> s'.procs[s.curr].status == WaitToRecv || DeliveredTo(h, h', me, s'.calls(me).msg))
    && (GotMessage(h, h', me) ==> call == SYS_RECV && s'.procs[s.curr].status != WaitToRecv)
    && CallTaken(call, s.calls(me), s'.calls(me))
  }

  /** One process's deliveries grow by one, and no others do. */
  lemma OneDelivery(h: History, h': History, p: int, q: int, msg: Message)
    requires h'.delivered(p) == h.delivered(p) + [Delivery(q, msg)] && forall r: int :: r != p ==> h'.delivered(r) == h.delivered(r)
    ensures AtMostOneDelivery(h, h') && DeliveredTo(h, h', q, msg)
    ensures forall r: int :: GotMessage(h, h', r) <==> r == q
  {
    assert DeliveredTo(h, h', q, msg);
    forall r: int | GotMessage(h, h', r) ensures r == q {
      var msg': Message :| DeliveredTo(h, h', r, msg');
      var p': int :| h'.delivered(p') == h.delivered(p') + [Delivery(r, msg')];
      assert h'.delivered(p')[|h.delivered(p')|] == Delivery(r, msg');
    }
  }

  lemma NoDeliveries(h: History, h': History)
    requires forall p: int :: h'.delivered(p) == h.delivered(p)
    ensures AtMostOneDelivery(h, h') && forall r: int :: !GotMessage(h, h', r)
  {
    forall r: int, msg: Message ensures !DeliveredTo(h, h', r, msg) {
    }
  }

  /** Deliveries are a matter of the logs of deliveries alone. */
  lemma SameDeliveries(h: History, h': History, g: History, g': History)
    requires g.delivered == h.delivered && g'.delivered == h'.delivered
    ensures forall r: int, msg: Message :: DeliveredTo(g, g', r, msg) <==> DeliveredTo(h, h', r, msg)
    ensures forall r: int :: GotMessage(g, g', r) <==> GotMessage(h, h', r)
    ensures AtMostOneDelivery(g, g') <==> AtMostOneDelivery(h, h')
  {
    forall r: int, msg: Message ensures DeliveredTo(g, g', r, msg) <==> DeliveredTo(h, h', r, msg) {
      if DeliveredTo(h, h', r, msg) {
        var p: int :| h'.delivered(p) == h.delivered(p) + [Delivery(r, msg)];
        assert g'.delivered(p) == g.delivered(p) + [Delivery(r, msg)];
      }
      if DeliveredTo(g, g', r, msg) {
        var p: int :| g'.delivered(p) == g.delivered(p) + [Delivery(r, msg)];
        assert h'.delivered(p) == h.delivered(p) + [Delivery(r, msg)];
      }
    }
  }

  lemma SendDelivers(s: State, x: State, h: History)
    requires Inv(s) && Inv(x) && x == Taken(Saved(s)) && SlotOfPid(x.procs, x.calls(x.vm).msg.receiver) < |x.procs|
    ensures var y := BeforeYieldSend(x);
            Shape(y) && OnlyDelivers(s, h, y, NoteSend(x, y, h)) && OwnArea(s, SYS_SEND, h, y, NoteSend(x, y, h))
  {
    hide SlotOfPid, NoLostRendezvous, Yield, DeliveredTo, GotMessage, AtMostOneDelivery;
    var y, to := BeforeYieldSend(x), x.calls(x.vm).msg.receiver;
    var r := SlotOfPid(x.procs, to);
    var h' := NoteSend(x, y, h);
    if x.procs[r].status == WaitToRecv {
      OneDelivery(h, h', x.vm, to, y.calls(to).msg);
      assert s.procs[r].pid == to && s.procs[r].status == WaitToRecv && y.procs[r].status == Runnable;
    } else {
      NoDeliveries(h, h');
    }
  }

  lemma RecvDelivers(s: State, x: State, h: History)
    requires Inv(s) && Inv(x) && x == Taken(Saved(s))
    ensures var y := BeforeYieldRecv(x);
            Shape(y) && OnlyDelivers(s, h, y, NoteRecv(x, y, h)) && OwnArea(s, SYS_RECV, h, y, NoteRecv(x, y, h))
  {
    hide NoLostRendezvous, Yield, LastWaiting, DeliveredTo, GotMessage, AtMostOneDelivery;
    var y, me := BeforeYieldRecv(x), x.procs[x.curr].pid;
    var i := LastWaiting(x.procs, me, |x.procs|);
    var h' := NoteRecv(x, y, h);
    if i >= 0 {
      OneDelivery(h, h', x.procs[i].pid, me, y.calls(me).msg);
    } else {
      NoDeliveries(h, h');
    }
  }

  /** A yield delivers nothing and ends no wait. */
  lemma YieldDelivers(s: State, call: int, h: History, y: State, h': History)
    requires Shape(s) && MidInv(y) && Yield(y).Go? && OnlyDelivers(s, h, y, h') && OwnArea(s, call, h, y, h')
    ensures var s' := Yield(y).s;
            var h'' := NoteRuns(h', s'.procs[s'.curr].pid);
            Shape(s') && OnlyDelivers(s, h, s', h'') && OwnArea(s, call, h, s', h'')
  {
    hide PidsOk, NoLostRendezvous, Yield, DeliveredTo, GotMessage, AtMostOneDelivery;
    YieldEffect(y);
    var s' := Yield(y).s;
    SameDeliveries(h, h', h, NoteRuns(h', s'.procs[s'.curr].pid));
    forall i | 0 <= i < MAX_NPROCESS ensures y.procs[i].status == WaitToRecv <==> s'.procs[i].status == WaitToRecv {
    }
    forall q: int | WaitEnds(s, y, q) ensures WaitEnds(s, s', q) {
    }
  }

  /** A kernel entry up to its yield. */
  lemma LeaveDelivers(s: State, e: Event, h: History)
    requires Inv(s) && Leaves(s, e)
    ensures var y, h0 := LeftIn(s, e), NoteTrap(h, s.procs[s.curr].pid, e.cpu);
            var h1 := NoteLeave(s.(cpu := e.cpu), e.id, y, h0);
            MidInv(y) && OnlyDelivers(s, h, y, h1) && OwnArea(s, CallOf(s, e), h, y, h1)
  {
    hide PidsOk, NoLostRendezvous, Yield, BeforeYieldRecv, BeforeYieldSend, NoteSend, NoteRecv, OnlyDelivers, OwnArea;
    var s0 := s.(cpu := e.cpu);
    EntryByPhase(s0, e.id, e.ctrlC);
    SavedInv(s0);
    var x, h0 := Taken(Saved(s0)), NoteTrap(h, s.procs[s.curr].pid, e.cpu);
    if e.id == INTR_ID_SOFT {
      if s.calls(s.vm).kind == SYS_RECV {
        RecvDelivers(s0, x, h0);
        SameHistory(s0, s, SYS_RECV, h0, h, LeftIn(s, e), NoteRecv(x, LeftIn(s, e), h0));
      } else {
        SendDelivers(s0, x, h0);
        SameHistory(s0, s, SYS_SEND, h0, h, LeftIn(s, e), NoteSend(x, LeftIn(s, e), h0));
      }
    } else {
      NoDelivery(s, SYS_UNUSED, h, LeftIn(s, e), h0);
    }
  }

  /** The CPU's registers and the contexts saved play no part. */
  lemma SameHistory(s0: State, s: State, call: int, h0: History, h: History, y: State, h': History)
    requires Shape(s) && Shape(y) && s0 == s.(cpu := s0.cpu) && h0 == h.(trapped := h0.trapped)
    requires OnlyDelivers(s0, h0, y, h') && OwnArea(s0, call, h0, y, h')
    ensures OnlyDelivers(s, h, y, h') && OwnArea(s, call, h, y, h')
  {
    hide DeliveredTo, GotMessage, AtMostOneDelivery;
    SameDeliveries(h0, h', h, h');
  }

  lemma NoDelivery(s: State, call: int, h: History, s': State, h': History)
    requires Shape(s) && Shape(s') && h'.sent == h.sent && h'.delivered == h.delivered && call != SYS_RECV
    requires forall q: int :: q != s.procs[s.curr].pid ==> s'.calls(q) == s.calls(q)
    requires var me := s.procs[s.curr].pid;
             && (s'.calls(me).msg == s.calls(me).msg || s'.calls(me).msg == s.calls(me).msg.(sender := me))
             && CallTaken(call, s.calls(me), s'.calls(me))
    requires forall i :: 0 <= i < MAX_NPROCESS && s.procs[i].status == WaitToRecv ==> s'.procs[i].status == WaitToRecv
    ensures OnlyDelivers(s, h, s', h') && OwnArea(s, call, h, s', h')
  {
    hide DeliveredTo, GotMessage, AtMostOneDelivery;
    NoDeliveries(h, h');
  }

  lemma TrapDelivers(s: State, e: Event, h: History)
    requires Inv(s) && e.Trap? && Do(s, e).Go?
    ensures Shape(Do(s, e).s) && OnlyDelivers(s, h, Do(s, e).s, Note(s, e, h)) && OwnArea(s, CallOf(s, e), h, Do(s, e).s, Note(s, e, h))
  {
    hide PidsOk, NoLostRendezvous, Yield, OnlyDelivers, OwnArea, NoteLeave;
    var s0 := s.(cpu := e.cpu);
    EntryByPhase(s0, e.id, e.ctrlC);
    var s', h' := Do(s, e).s, Note(s, e, h);
    if Leaves(s, e) {
      hide Interrupt;
      LeaveDelivers(s, e, h);
      var y := LeftIn(s, e);
      var h1 := NoteLeave(s0, e.id, y, NoteTrap(h, s.procs[s.curr].pid, e.cpu));
      YieldDelivers(s, CallOf(s, e), h, y, h1);
      SameAreas(s, CallOf(s, e), h, Yield(y).s, s', h');
    } else {
      NoDelivery(s, CallOf(s, e), h, s', h');
    }
  }

  lemma SameAreas(s: State, call: int, h: History, s1: State, s': State, h': History)
    requires Shape(s) && Shape(s1) && s' == s1.(cpu := s'.cpu)
    requires OnlyDelivers(s, h, s1, h') && OwnArea(s, call, h, s1, h')
    ensures OnlyDelivers(s, h, s', h') && OwnArea(s, call, h, s', h')
  {
  }

  lemma StepDelivers(s: State, e: Event, h: History)
    requires Inv(s) && Enabled(s, e) && Do(s, e).Go?
    ensures Shape(Do(s, e).s) && OnlyDelivers(s, h, Do(s, e).s, Note(s, e, h))
  {
    hide NoLostRendezvous, Yield, KernelEntry;
    if e.Trap? {
      TrapDelivers(s, e, h);
    }
  }

  /** Over any run, the sends of a live process have been delivered exactly as sent, each once and in order, to
      the receiver they name and with its own pid as sender; all but the one it is blocked on, which waits
      unchanged in its syscall area. A delivered message is there unchanged when its receiver gets to run. And
      the deliveries are all there is: no step puts a message anywhere else, or ends a wait for one without one. */
  lemma DeliveredExactlyOnce(ss: seq<State>, es: seq<Event>, n: nat, i: nat)
    requires IsRun(ss, es) && n <= |es| && i < MAX_NPROCESS
    ensures Shape(ss[n])
    ensures var p, h := ss[n].procs[i], HistoryAt(ss, es, n);
            && (p.status == WaitToSend ==> h.sent(p.pid) == h.delivered(p.pid) + [Delivery(p.receiver, ss[n].calls(p.pid).msg)])
            && (p.status != WaitToSend && p.status != Unused ==> h.sent(p.pid) == h.delivered(p.pid))
            && (forall k :: 0 <= k < |h.sent(p.pid)| ==> h.sent(p.pid)[k].msg.sender == p.pid)
            && (p.status == Runnable && h.inbox(p.pid).Some? ==> ss[n].calls(p.pid).msg == h.inbox(p.pid).value)
    ensures n < |es| ==> Shape(ss[n + 1]) && OnlyDelivers(ss[n], HistoryAt(ss, es, n), ss[n + 1], HistoryAt(ss, es, n + 1))
    ensures n < |es| && es[n].Trap? ==>
              OwnArea(ss[n], CallOf(ss[n], es[n]), HistoryAt(ss, es, n), ss[n + 1], HistoryAt(ss, es, n + 1))
  {
    hide Do, Enabled, Boot, OnlyDelivers, OwnArea, Note;
    RunHist(ss, es, n);
    RunStamped(ss, es, n);
    assert ss[n].procs[i].pid != 0 ==> LogOk(ss[n].procs[i], ss[n].calls, HistoryAt(ss, es, n));
    if n < |es| {
      assert Do(ss[n], es[n]) == Go(ss[n + 1]);
      StepDelivers(ss[n], es[n], HistoryAt(ss, es, n));
      if es[n].Trap? {
        TrapDelivers(ss[n], es[n], HistoryAt(ss, es, n));
      }
    }
  }

  // ---- What a send returns ----

  /** Slot `i`, with pid `p`, is inside a send that was accepted: `sent` are its sends up to that one. */
  ghost predicate InSend(s: State, h: History, i: nat, p: int, sent: seq<Delivery>) {
    && Shape(s) && i < MAX_NPROCESS && s.procs[i].pid == p
    && (s.procs[i].status == WaitToSend || s.procs[i].status == Runnable || s.procs[i].status == Running)
    && h.sent(p) == sent && s.calls(p).retval == 0 && s.calls(p).kind == SYS_UNUSED
  }

  /** What the call sends, once its sender is stamped on it. */
  ghost function Sending(s: State): (d: Delivery)
    requires Shape(s)
  {
    var me := s.procs[s.curr].pid;
    Delivery(s.calls(me).msg.receiver, s.calls(me).msg.(sender := me))
  }

  lemma SenderAtYield(x: State)
    requires Inv(x) && SlotOfPid(x.procs, x.calls(x.vm).msg.receiver) < |x.procs|
    ensures var y := BeforeYieldSend(x);
            && |y.procs| == |x.procs| && y.procs[x.curr].pid == x.vm
            && y.calls(x.vm).retval == x.calls(x.vm).retval && y.calls(x.vm).kind == x.calls(x.vm).kind
            && (y.procs[x.curr].status == WaitToSend || y.procs[x.curr].status == Running)
  {
    hide NoLostRendezvous, SlotOfPid;
  }

  /** How the kernel takes the call. */
  lemma SendPhase(s: State, e: Event)
    requires Inv(s) && e.Trap? && CallOf(s, e) == SYS_SEND
    ensures var x := Taken(Saved(s.(cpu := e.cpu)));
            && Inv(x) && (Addressed(s) <==> SlotOfPid(x.procs, x.calls(x.vm).msg.receiver) < |x.procs|)
            && PhaseOf(s.(cpu := e.cpu), e.id, e.ctrlC) == if Addressed(s) then Leave(BeforeYieldSend(x)) else Stay(Refused(x))
  {
    hide PidsOk, NoLostRendezvous, SlotOfPid, BeforeYieldSend;
    var s0 := s.(cpu := e.cpu);
    SavedInv(s0);
    assert forall j :: 0 <= j < MAX_NPROCESS ==> Saved(s0).procs[j].pid == s.procs[j].pid;
  }

  /** The step of the call itself, if some slot has the receiver's pid ... */
  lemma SendStarts(s: State, e: Event, h: History)
    requires HistInv(s, h) && e.Trap? && CallOf(s, e) == SYS_SEND && Do(s, e).Go? && Addressed(s)
    ensures InSend(Do(s, e).s, Note(s, e, h), s.curr, s.procs[s.curr].pid, h.sent(s.procs[s.curr].pid) + [Sending(s)])
  {
    hide PidsOk, NoLostRendezvous, Yield, SlotOfPid, Interrupt, BeforeYieldSend, LogsOk;
    SendPhase(s, e);
    var x := Taken(Saved(s.(cpu := e.cpu)));
    SenderAtYield(x);
    BeforeYieldSendInv(x);
    YieldEffect(LeftIn(s, e));
  }

  /** ... and if none has. */
  lemma SendFails(s: State, e: Event, h: History)
    requires HistInv(s, h) && e.Trap? && CallOf(s, e) == SYS_SEND && !Addressed(s)
    ensures Do(s, e).Go?
    ensures var p, s' := s.procs[s.curr].pid, Do(s, e).s;
            && s'.procs[s.curr].pid == p && s'.procs[s.curr].status == Running
            && s'.calls(p).retval == -1 && s'.calls(p).kind == SYS_UNUSED
            && Note(s, e, h).delivered(p) == h.delivered(p)
  {
    hide PidsOk, NoLostRendezvous, Yield, SlotOfPid, Interrupt, LogsOk;
    SendPhase(s, e);
  }

  /** A step of another process leaves the send as it is, unless it frees the slot. */
  lemma SendWaits(s: State, e: Event, h: History, i: nat, p: int, sent: seq<Delivery>)
    requires HistInv(s, h) && InSend(s, h, i, p, sent) && s.procs[i].status != Running && Enabled(s, e) && Do(s, e).Go?
    ensures InSend(Do(s, e).s, Note(s, e, h), i, p, sent) || Do(s, e).s.procs[i].status == Unused
  {
    hide NoLostRendezvous, KernelEntry, Yield, Note;
    StepDelivers(s, e, h);
    StepHist(s, e, h);
    PidOfUsed(s, i);
    DistinctPids(s, i, s.curr);
    if e.Trap? {
      EntrySlots(s.(cpu := e.cpu), e.id, e.ctrlC, i);
    }
  }

  lemma {:induction false} SendGoesOn(ss: seq<State>, es: seq<Event>, m: nat, n: nat, i: nat, p: int, sent: seq<Delivery>)
    requires IsRun(ss, es) && m <= n <= |es| && InSend(ss[m], HistoryAt(ss, es, m), i, p, sent)
    requires forall k :: m <= k <= n ==> Shape(ss[k]) && ss[k].procs[i].status != Unused
    requires forall k :: m <= k < n ==> ss[k].procs[i].status != Running
    ensures InSend(ss[n], HistoryAt(ss, es, n), i, p, sent)
    decreases n
  {
    hide Do, Enabled, Boot, Note, HistInv;
    if m < n {
      SendGoesOn(ss, es, m, n - 1, i, p, sent);
      RunHist(ss, es, n - 1);
      assert Do(ss[n - 1], es[n - 1]) == Go(ss[n - 1 + 1]);
      SendWaits(ss[n - 1], es[n - 1], HistoryAt(ss, es, n - 1), i, p, sent);
    }
  }

  /** From one state to another slot `i` keeps being used, and in between it does not run. */
  ghost predicate NextRun(ss: seq<State>, m: nat, n: nat, i: nat) {
    && m < n < |ss| && i < MAX_NPROCESS
    && (forall k :: m <= k <= n ==> Shape(ss[k]) && ss[k].procs[i].status != Unused)
    && (forall k :: m < k < n ==> ss[k].procs[i].status != Running)
    && ss[n].procs[i].status == Running
  }

  /** Over any run, from the step that makes a call to send to the next state in which its process runs: the call
      returns 0 exactly when the message has been delivered meanwhile, and otherwise -1, at once, because no
      process had the pid. */
  lemma SendReturns(ss: seq<State>, es: seq<Event>, m: nat, n: nat)
    requires IsRun(ss, es) && m < n <= |es| && es[m].Trap? && CallOf(ss[m], es[m]) == SYS_SEND && NextRun(ss, m, n, ss[m].curr)
    ensures var p, before, after := ss[m].procs[ss[m].curr].pid, HistoryAt(ss, es, m), HistoryAt(ss, es, n);
            && ss[n].procs[ss[m].curr].pid == p && ss[n].calls(p).kind == SYS_UNUSED
            && if Addressed(ss[m])
               then ss[n].calls(p).retval == 0 && after.delivered(p) == before.delivered(p) + [Sending(ss[m])]
               else n == m + 1 && ss[n].calls(p).retval == -1 && after.delivered(p) == before.delivered(p)
  {
    hide Do, Enabled, Boot, Note, HistInv, Inv, Sending, Addressed;
    RunHist(ss, es, m);
    assert Do(ss[m], es[m]) == Go(ss[m + 1]);
    if Addressed(ss[m]) {
      var i, h := ss[m].curr, HistoryAt(ss, es, m);
      SendStarts(ss[m], es[m], h);
      SendGoesOn(ss, es, m + 1, n, i, ss[m].procs[i].pid, h.sent(ss[m].procs[i].pid) + [Sending(ss[m])]);
      RunningLog(ss[m], h, i);
      RunHist(ss, es, n);
      RunningLog(ss[n], HistoryAt(ss, es, n), i);
    } else {
      SendFails(ss[m], es[m], HistoryAt(ss, es, m));
    }
  }

  lemma RunningLog(s: State, h: History, i: nat)
    requires HistInv(s, h) && i < MAX_NPROCESS
    ensures s.procs[i].status == Running ==> h.sent(s.procs[i].pid) == h.delivered(s.procs[i].pid)
    ensures s.procs[s.curr].status == Running
  {
    assert s.procs[i].pid != 0 ==> LogOk(s.procs[i], s.calls, h);
  }

  // ---- What a receive returns ----

  /** Slot `i`, with pid `p`, is inside a call to receive: still waiting, or with message `got` in its area. */
  ghost predicate InRecv(s: State, i: nat, p: int, got: Option<Message>) {
    && Shape(s) && i < MAX_NPROCESS && s.procs[i].pid == p && p != 0 && s.calls(p).kind == SYS_UNUSED && s.calls(p).retval == 0
    && match got
       case None => s.procs[i].status == WaitToRecv
       case Some(msg) => (s.procs[i].status == Runnable || s.procs[i].status == Running) && s.calls(p).msg == msg
  }

  /** The step of the call itself. */
  lemma RecvStarts(s: State, e: Event, h: History)
    requires Inv(s) && e.Trap? && CallOf(s, e) == SYS_RECV && Do(s, e).Go?
    ensures var p, s', h' := s.procs[s.curr].pid, Do(s, e).s, Note(s, e, h);
            if GotMessage(h, h', p) then InRecv(s', s.curr, p, Some(s'.calls(p).msg)) && DeliveredTo(h, h', p, s'.calls(p).msg)
            else InRecv(s', s.curr, p, None)
  {
    hide PidsOk, NoLostRendezvous, Yield, Interrupt, Note, DeliveredTo, GotMessage, AtMostOneDelivery;
    TrapDelivers(s, e, h);
    if DeliveredTo(h, Note(s, e, h), s.procs[s.curr].pid, Do(s, e).s.calls(s.procs[s.curr].pid).msg) {
      GotIt(h, Note(s, e, h), s.procs[s.curr].pid, Do(s, e).s.calls(s.procs[s.curr].pid).msg);
    }
    ReceiverSlot(s, e);
  }

  lemma GotIt(h: History, h': History, q: int, msg: Message)
    requires DeliveredTo(h, h', q, msg)
    ensures GotMessage(h, h', q)
  {
  }

  lemma ReceiverAtYield(x: State)
    requires Inv(x)
    ensures var p := BeforeYieldRecv(x).procs[x.curr];
            p.pid == x.procs[x.curr].pid && (p.status == WaitToRecv || p.status == Running)
  {
    hide NoLostRendezvous, LastWaiting;
  }

  lemma ReceiverSlot(s: State, e: Event)
    requires Inv(s) && e.Trap? && CallOf(s, e) == SYS_RECV && Do(s, e).Go?
    ensures var p := Do(s, e).s.procs[s.curr];
            p.pid == s.procs[s.curr].pid && (p.status == WaitToRecv || p.status == Runnable || p.status == Running)
  {
    hide PidsOk, NoLostRendezvous, Yield, BeforeYieldRecv, BeforeYieldSend, SlotOfPid;
    var s0 := s.(cpu := e.cpu);
    EntryByPhase(s0, e.id, e.ctrlC);
    SavedInv(s0);
    ReceiverAtYield(Taken(Saved(s0)));
    YieldEffect(LeftIn(s, e));
  }

  /** A step of another process: the wait goes on, or ends with the one message; after that nothing more comes. */
  lemma RecvWaits(s: State, e: Event, h: History, i: nat, p: int, got: Option<Message>)
    requires HistInv(s, h) && InRecv(s, i, p, got) && s.procs[i].status != Running && Enabled(s, e) && Do(s, e).Go?
    requires Do(s, e).s.procs[i].status != Unused
    ensures var s', h' := Do(s, e).s, Note(s, e, h);
            if GotMessage(h, h', p) then got == None && InRecv(s', i, p, Some(s'.calls(p).msg)) && DeliveredTo(h, h', p, s'.calls(p).msg)
            else InRecv(s', i, p, got)
  {
    hide NoLostRendezvous, KernelEntry, Yield, Note, DeliveredTo, GotMessage, AtMostOneDelivery;
    StepDelivers(s, e, h);
    DistinctPids(s, i, s.curr);
    var s', h' := Do(s, e).s, Note(s, e, h);
    if e.Trap? {
      EntrySlots(s.(cpu := e.cpu), e.id, e.ctrlC, i);
    }
    if DeliveredTo(h, h', p, s'.calls(p).msg) {
      GotIt(h, h', p, s'.calls(p).msg);
    }
    if WaitEnds(s, s', p) {
      var j :| 0 <= j < MAX_NPROCESS && s.procs[j].pid == p && s.procs[j].status == WaitToRecv && s'.procs[j].status != WaitToRecv;
      SameSlot(s, i, j);
    }
  }

  lemma SameSlot(s: State, i: nat, j: nat)
    requires MidInv(s) && i < MAX_NPROCESS && j < MAX_NPROCESS && s.procs[i].pid == s.procs[j].pid != 0
    ensures i == j
  {
  }

  /** Step `k` delivers a message to `p`. */
  ghost predicate Comes(ss: seq<State>, es: seq<Event>, k: nat, p: int)
    requires IsRun(ss, es) && k < |es|
  {
    GotMessage(HistoryAt(ss, es, k), HistoryAt(ss, es, k + 1), p)
  }

  /** Slot `i` does not run before state `n`, and is in use. */
  ghost predicate Held(ss: seq<State>, m: nat, n: nat, i: nat) {
    && m <= n < |ss| && i < MAX_NPROCESS
    && (forall k :: m <= k <= n ==> Shape(ss[k]) && ss[k].procs[i].status != Unused)
    && (forall k :: m <= k < n ==> ss[k].procs[i].status != Running)
  }

  lemma RecvStep(ss: seq<State>, es: seq<Event>, m: nat, n: nat, i: nat, p: int, got: Option<Message>)
    requires IsRun(ss, es) && n <= |es| && Held(ss, m, n, i) && m < n && InRecv(ss[m], i, p, got)
    ensures if Comes(ss, es, m, p)
            then got == None && InRecv(ss[m + 1], i, p, Some(ss[m + 1].calls(p).msg)) &&
                 DeliveredTo(HistoryAt(ss, es, m), HistoryAt(ss, es, m + 1), p, ss[m + 1].calls(p).msg)
            else InRecv(ss[m + 1], i, p, got)
  {
    hide Do, Enabled, Boot, Note, HistInv, InRecv, DeliveredTo, GotMessage;
    RunHist(ss, es, m);
    assert Do(ss[m], es[m]) == Go(ss[m + 1]);
    RecvWaits(ss[m], es[m], HistoryAt(ss, es, m), i, p, got);
  }

  /** Once its message has come, nothing more comes until the process runs. */
  lemma {:induction false} AfterMessage(ss: seq<State>, es: seq<Event>, m: nat, n: nat, i: nat, p: int, msg: Message)
    requires IsRun(ss, es) && n <= |es| && Held(ss, m, n, i) && InRecv(ss[m], i, p, Some(msg))
    ensures InRecv(ss[n], i, p, Some(msg)) && forall k :: m <= k < n ==> !Comes(ss, es, k, p)
    decreases n - m
  {
    hide IsRun, InRecv, Comes;
    if m < n {
      RecvStep(ss, es, m, n, i, p, Some(msg));
      AfterMessage(ss, es, m + 1, n, i, p, msg);
    }
  }

  /** The one message that came between `m` and `n`, in step `k`, is in the area. */
  ghost predicate OneMessage(ss: seq<State>, es: seq<Event>, m: nat, n: nat, p: int, k: nat)
    requires IsRun(ss, es) && m <= k < n <= |es|
  {
    && DeliveredTo(HistoryAt(ss, es, k), HistoryAt(ss, es, k + 1), p, ss[n].calls(p).msg)
    && forall j :: m <= j < n && j != k ==> !Comes(ss, es, j, p)
  }

  /** A process that waits for a message does not run before it has come. */
  lemma {:induction false} UntilMessage(ss: seq<State>, es: seq<Event>, m: nat, n: nat, i: nat, p: int) returns (k: nat)
    requires IsRun(ss, es) && n <= |es| && Held(ss, m, n, i) && InRecv(ss[m], i, p, None) && ss[n].procs[i].status == Running
    ensures m <= k < n && OneMessage(ss, es, m, n, p, k) && InRecv(ss[n], i, p, Some(ss[n].calls(p).msg))
    decreases n - m
  {
    hide IsRun, Comes, DeliveredTo;
    RecvStep(ss, es, m, n, i, p, None);
    if Comes(ss, es, m, p) {
      AfterMessage(ss, es, m + 1, n, i, p, ss[m + 1].calls(p).msg);
      k := m;
    } else {
      k := UntilMessage(ss, es, m + 1, n, i, p);
    }
  }

  /** Over any run, from the step that makes a call to receive to the next state in which its process runs: exactly one
      message has been delivered to it, that message is in its area, and the call has been taken and returns 0. */
  lemma RecvReturns(ss: seq<State>, es: seq<Event>, m: nat, n: nat) returns (k: nat)
    requires IsRun(ss, es) && m < n <= |es| && es[m].Trap? && CallOf(ss[m], es[m]) == SYS_RECV && NextRun(ss, m, n, ss[m].curr)
    ensures m <= k < n && OneMessage(ss, es, m, n, ss[m].procs[ss[m].curr].pid, k)
    ensures var p := ss[m].procs[ss[m].curr].pid;
            ss[n].procs[ss[m].curr].pid == p && ss[n].calls(p).kind == SYS_UNUSED && ss[n].calls(p).retval == 0
  {
    hide Do, Enabled, Boot, Note, HistInv, DeliveredTo, GotMessage;
    var i, p, h := ss[m].curr, ss[m].procs[ss[m].curr].pid, HistoryAt(ss, es, m);
    RunInv(ss, es, m);
    assert Do(ss[m], es[m]) == Go(ss[m + 1]);
    RecvStarts(ss[m], es[m], h);
    if Comes(ss, es, m, p) {
      AfterMessage(ss, es, m + 1, n, i, p, ss[m + 1].calls(p).msg);
      k := m;
    } else {
      k := UntilMessage(ss, es, m + 1, n, i, p);
    }
  }

  /** Over any run, context switches are invisible to the process that resumes. */
  lemma ContextsRestored(ss: seq<State>, es: seq<Event>, n: nat)
    requires IsRun(ss, es) && n < |es| && es[n].Trap?
    ensures Shape(ss[n]) && Shape(ss[n + 1]) && ResumesAfter(ss[n], es[n], HistoryAt(ss, es, n), ss[n + 1])
  {
    RunHist(ss, es, n);
    RunInv(ss, es, n + 1);
    TrapHist(ss[n], es[n], HistoryAt(ss, es, n));
    assert Do(ss[n], es[n]) == Go(ss[n + 1]);
  }
}
