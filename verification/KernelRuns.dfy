/** What holds in every state the kernel can reach, and over whole runs. */
module KernelRuns {
  import opened Words
  import opened KernelModel

  // ---- The scheduler invariant ----

  /** Pids in use are distinct and were handed out by the counter; a slot with pid 0 was never used. */
  ghost predicate PidsOk(procs: seq<Process>, nprocs: nat) {
    && (forall i :: 0 <= i < |procs| ==> 0 <= procs[i].pid <= nprocs)
    && (forall i :: 0 <= i < |procs| ==> procs[i].pid == 0 ==> procs[i].status == Unused)
    && forall i, j :: 0 <= i < j < |procs| ==> procs[i].pid == procs[j].pid ==> procs[i].pid == 0
  }

  /** Nobody waits to send to a process that waits to receive, and waiting senders name pids already handed out. */
  ghost predicate NoLostRendezvous(procs: seq<Process>, nprocs: nat) {
    && (forall i :: 0 <= i < |procs| ==> procs[i].status == WaitToSend ==> procs[i].receiver <= nprocs)
    && forall i, j :: 0 <= i < |procs| && 0 <= j < |procs| ==>
         WaitsFor(procs[i], procs[j].pid) ==> procs[j].status != WaitToRecv
  }

  /** The invariant inside the kernel, where the current slot may already have stopped running. */
  ghost predicate MidInv(s: State) {
    && Shape(s) && PidsOk(s.procs, s.nprocs) && NoLostRendezvous(s.procs, s.nprocs)
    && s.procs[s.curr].pid != 0
    && forall i :: 0 <= i < MAX_NPROCESS && i != s.curr ==> s.procs[i].status != Running
  }

  /** Exactly the current slot runs, with its memory mapped in. */
  ghost predicate Inv(s: State) {
    MidInv(s) && s.procs[s.curr].status == Running && s.vm == s.procs[s.curr].pid
  }

  lemma OneSlotChanges(procs: seq<Process>, nprocs: nat, i: nat, st: Status)
    requires PidsOk(procs, nprocs) && i < |procs| && procs[i].pid != 0
    ensures SetStatus(procs, procs[i].pid, st) == procs[i := procs[i].(status := st)]
  {
  }

  /** What `proc_yield` does to each slot. */
  lemma YieldEffect(s: State)
    requires MidInv(s) && Yield(s).Go?
    ensures var s', next := Yield(s).s, After(s.curr, NextAfter(s.procs, s.curr, 1));
            && s' == s.(procs := s'.procs, curr := next, vm := s.procs[next].pid)
            && Schedulable(s.procs[next].status) && |s'.procs| == |s.procs|
            && s'.procs[next] == s.procs[next].(status := Running, context := s'.procs[next].context)
            && s'.procs[next].context == (if s.procs[next].status == Ready then EntryContext(s.procs[next].context) else s.procs[next].context)
            && forall j :: 0 <= j < MAX_NPROCESS && j != next ==>
                 s'.procs[j] == if j == s.curr && s.procs[j].status == Running then s.procs[j].(status := Runnable) else s.procs[j]
  {
  }

  lemma YieldInv(s: State)
    requires MidInv(s) && Yield(s).Go?
    ensures Inv(Yield(s).s)
  {
    YieldEffect(s);
  }

  /** Ending a wait cannot lose a rendezvous. */
  lemma Wake(procs: seq<Process>, nprocs: nat, i: nat)
    requires PidsOk(procs, nprocs) && NoLostRendezvous(procs, nprocs) && i < |procs| && procs[i].pid != 0
    ensures SetStatus(procs, procs[i].pid, Runnable) == procs[i := procs[i].(status := Runnable)]
    ensures PidsOk(procs[i := procs[i].(status := Runnable)], nprocs)
    ensures NoLostRendezvous(procs[i := procs[i].(status := Runnable)], nprocs)
  {
  }

  /** Blocking to send to a process that is not receiving. */
  lemma BlockSend(procs: seq<Process>, nprocs: nat, c: nat, i: nat)
    requires PidsOk(procs, nprocs) && NoLostRendezvous(procs, nprocs)
    requires c < |procs| && i < |procs| && procs[c].pid != 0 && procs[c].status == Running && procs[i].status != WaitToRecv
    ensures PidsOk(procs[c := procs[c].(status := WaitToSend, receiver := procs[i].pid)], nprocs)
    ensures NoLostRendezvous(procs[c := procs[c].(status := WaitToSend, receiver := procs[i].pid)], nprocs)
  {
  }

  /** Blocking to receive when nobody is waiting to send here. */
  lemma BlockRecv(procs: seq<Process>, nprocs: nat, c: nat)
    requires PidsOk(procs, nprocs) && NoLostRendezvous(procs, nprocs)
    requires c < |procs| && procs[c].pid != 0 && procs[c].status == Running
    requires forall j :: 0 <= j < |procs| ==> !WaitsFor(procs[j], procs[c].pid)
    ensures PidsOk(procs[c := procs[c].(status := WaitToRecv)], nprocs)
    ensures NoLostRendezvous(procs[c := procs[c].(status := WaitToRecv)], nprocs)
  {
  }

  lemma BeforeYieldSendInv(s: State)
    requires Inv(s) && SlotOfPid(s.procs, s.calls(s.vm).msg.receiver) < |s.procs|
    ensures MidInv(BeforeYieldSend(s))
  {
    hide Yield, PidsOk, NoLostRendezvous;
    var i := SlotOfPid(s.procs, s.calls(s.vm).msg.receiver);
    if s.procs[i].status == WaitToRecv {
      PidOfUsed(s, i);
      Wake(s.procs, s.nprocs, i);
    } else {
      BlockSend(s.procs, s.nprocs, s.curr, i);
    }
  }

  lemma PidOfUsed(s: State, i: nat)
    requires MidInv(s) && i < MAX_NPROCESS && s.procs[i].status != Unused
    ensures s.procs[i].pid > 0
  {
  }

  lemma BeforeYieldRecvInv(s: State)
    requires Inv(s)
    ensures MidInv(BeforeYieldRecv(s))
  {
    hide Yield, PidsOk, NoLostRendezvous;
    var i := LastWaiting(s.procs, s.procs[s.curr].pid, |s.procs|);
    if i >= 0 {
      PidOfUsed(s, i);
      Wake(s.procs, s.nprocs, i);
    } else {
      BlockRecv(s.procs, s.nprocs, s.curr);
    }
  }

  /** How the entry of state `s` ends, before the context of the slot entered is restored. */
  ghost function PhaseOf(s: State, id: int, ctrlC: bool): (ph: Phase)
    requires Shape(s)
  {
    Interrupt(Saved(s), id, ctrlC)
  }

  lemma SavedInv(s: State)
    requires Inv(s)
    ensures Inv(Saved(s)) && Inv(Taken(Saved(s))) && Inv(Refused(Taken(Saved(s))))
  {
    var procs' := Saved(s).procs;
    forall a, b | 0 <= a < |procs'| && 0 <= b < |procs'| && WaitsFor(procs'[a], procs'[b].pid)
      ensures procs'[b].status != WaitToRecv
    {
      assert WaitsFor(s.procs[a], s.procs[b].pid);
    }
  }

  lemma EntryByPhase(s: State, id: int, ctrlC: bool)
    requires Inv(s)
    ensures PhaseOk(PhaseOf(s, id, ctrlC))
    ensures match PhaseOf(s, id, ctrlC)
            case Stop => true
            case Stay(x) => Inv(x) && x.curr == s.curr && (x == Saved(s) || x == Refused(Taken(Saved(s))))
            case Leave(y) => MidInv(y) && y.curr == s.curr
  {
    hide Yield, PidsOk, NoLostRendezvous;
    var x := Taken(Saved(s));
    SavedInv(s);
    BeforeYieldRecvInv(x);
    if SlotOfPid(x.procs, x.calls(x.vm).msg.receiver) < |x.procs| {
      BeforeYieldSendInv(x);
    }
  }

  lemma EntryInv(s: State, id: int, ctrlC: bool)
    requires Inv(s) && KernelEntry(s, id, ctrlC).Go?
    ensures Inv(KernelEntry(s, id, ctrlC).s)
  {
    hide Interrupt, Yield;
    EntryByPhase(s, id, ctrlC);
    match PhaseOf(s, id, ctrlC)
    case Stop =>
    case Stay(x) =>
    case Leave(y) => YieldInv(y);
  }

  /** A send to a pid that no slot has fails at once: the sender goes on with -1, and no other process sees anything. */
  lemma SendToNobody(s: State, ctrlC: bool)
    requires Inv(s) && s.calls(s.vm).kind == SYS_SEND && !(ctrlC && s.procs[s.curr].pid >= GPID_USER_START)
    requires forall i :: 0 <= i < MAX_NPROCESS ==> s.procs[i].pid != s.calls(s.vm).msg.receiver
    ensures var r := KernelEntry(s, INTR_ID_SOFT, ctrlC);
            && r.Go? && r.s.curr == s.curr && r.s.cpu == s.cpu && r.s.vm == s.vm
            && r.s.calls(s.vm).retval == -1 && r.s.calls(s.vm).kind == SYS_UNUSED
            && (forall pid: int :: pid != s.vm ==> r.s.calls(pid) == s.calls(pid))
            && r.s.procs == s.procs[s.curr := s.procs[s.curr].(context := s.cpu)]
  {
    hide Yield, SlotOfPid;
    EntryByPhase(s, INTR_ID_SOFT, ctrlC);
  }

  // ---- Runs ----

  /** What can happen next: the running process is interrupted with some CPU context, or fills in its own
      syscall area; GPID_PROCESS, while it runs, creates, readies and frees processes. */
  datatype Event =
    | Trap(id: int, ctrlC: bool, cpu: Context)
    | UserCall(call: Syscall)
    | Spawn
    | MarkReady(pid: int)
    | Kill(pid: int)

  ghost predicate Enabled(s: State, e: Event)
    requires Shape(s)
  {
    var me := s.procs[s.curr].pid;
    match e
    case Trap(_, _, _) => true
    case UserCall(_) => true
    case Spawn => me == GPID_PROCESS
    case MarkReady(pid) => me == GPID_PROCESS && exists i :: 0 <= i < |s.procs| && s.procs[i].pid == pid && s.procs[i].status == Loading
    case Kill(pid) => me == GPID_PROCESS && pid != GPID_PROCESS
  }

  ghost function Do(s: State, e: Event): (r: Outcome)
    requires Shape(s)
  {
    match e
    case Trap(id, ctrlC, cpu) => KernelEntry(s.(cpu := cpu), id, ctrlC)
    case UserCall(call) => Go(s.(calls := At(s.calls, s.vm, call)))
    case Spawn => Alloc(s)
    case MarkReady(pid) => Go(s.(procs := SetStatus(s.procs, pid, Ready)))
    case Kill(pid) => Go(s.(procs := FreeProcs(s.procs, pid)))
  }

  /** GPID_PROCESS runs in slot 0, all other slots are unused. */
  ghost predicate Boot(s: State) {
    && Shape(s) && s.curr == 0 && s.nprocs == GPID_PROCESS && s.vm == GPID_PROCESS
    && s.procs[0].pid == GPID_PROCESS && s.procs[0].status == Running
    && forall i :: 0 < i < MAX_NPROCESS ==> s.procs[i].pid == 0 && s.procs[i].status == Unused
  }

  ghost predicate IsRun(ss: seq<State>, es: seq<Event>) {
    && |ss| == |es| + 1 && Boot(ss[0])
    && forall i :: 0 <= i < |es| ==> Shape(ss[i]) && Enabled(ss[i], es[i]) && Do(ss[i], es[i]) == Go(ss[i + 1])
  }

  lemma SpawnInv(s: State)
    requires Inv(s) && Alloc(s).Go?
    ensures Inv(Alloc(s).s)
  {
  }

  /** Moving slots to states in which they neither send nor receive. */
  lemma RetireInv(s: State, procs': seq<Process>)
    requires Inv(s) && |procs'| == |s.procs| && procs'[s.curr] == s.procs[s.curr]
    requires forall i :: 0 <= i < |procs'| ==>
               || procs'[i] == s.procs[i]
               || procs'[i] == s.procs[i].(status := Unused)
               || (procs'[i] == s.procs[i].(status := Ready) && s.procs[i].pid != 0)
    ensures Inv(s.(procs := procs'))
  {
  }

  lemma StepInv(s: State, e: Event)
    requires Inv(s) && Enabled(s, e) && Do(s, e).Go?
    ensures Inv(Do(s, e).s)
  {
    match e
    case Trap(id, ctrlC, cpu) => EntryInv(s.(cpu := cpu), id, ctrlC);
    case UserCall(_) =>
    case Spawn => SpawnInv(s);
    case MarkReady(pid) =>
      var i :| 0 <= i < |s.procs| && s.procs[i].pid == pid && s.procs[i].status == Loading;
      LoadingPid(s, i);
      RetireInv(s, SetStatus(s.procs, pid, Ready));
    case Kill(pid) =>
      RetireInv(s, FreeProcs(s.procs, pid));
  }

  lemma LoadingPid(s: State, i: nat)
    requires Inv(s) && i < MAX_NPROCESS && s.procs[i].status == Loading
    ensures s.procs[i].pid != 0 && s.procs[i].pid != s.procs[s.curr].pid
  {
  }

  /** In every reachable state: one slot runs, it is the current one and mapped in, pids are distinct, and no
      process waits to send to one that waits to receive. */
  lemma {:induction false} RunInv(ss: seq<State>, es: seq<Event>, n: nat)
    requires IsRun(ss, es) && n <= |es|
    ensures Inv(ss[n])
  {
    if n > 0 {
      RunInv(ss, es, n - 1);
      StepInv(ss[n - 1], es[n - 1]);
      assert Do(ss[n - 1], es[n - 1]) == Go(ss[n - 1 + 1]);
    }
  }

  /** A process being loaded is left alone until it is marked ready or killed. */
  lemma LoadingKept(s: State, e: Event, i: nat)
    requires Inv(s) && Enabled(s, e) && Do(s, e).Go? && i < MAX_NPROCESS && s.procs[i].status == Loading
    ensures e.MarkReady? || e.Kill? || Do(s, e).s.procs[i] == s.procs[i]
  {
    match e
    case Trap(id, ctrlC, cpu) => EntryKeepsLoading(s.(cpu := cpu), id, ctrlC, i);
    case _ =>
  }

  lemma EntryKeepsLoading(s: State, id: int, ctrlC: bool, i: nat)
    requires Inv(s) && KernelEntry(s, id, ctrlC).Go? && i < MAX_NPROCESS && s.procs[i].status == Loading
    ensures KernelEntry(s, id, ctrlC).s.procs[i] == s.procs[i]
  {
    EntrySlots(s, id, ctrlC, i);
  }

  /** What happens inside the kernel to a slot other than the current one: at most, a wait ends. */
  ghost predicate MayWake(p: Process, p': Process) {
    p' == p || (p' == p.(status := Runnable) && (p.status == WaitToSend || p.status == WaitToRecv))
  }

  lemma WaitersOnly(x: State, i: nat)
    requires Inv(x) && i < MAX_NPROCESS && i != x.curr
    ensures MayWake(x.procs[i], BeforeYieldRecv(x).procs[i])
    ensures SlotOfPid(x.procs, x.calls(x.vm).msg.receiver) < |x.procs| ==> MayWake(x.procs[i], BeforeYieldSend(x).procs[i])
  {
    var w := LastWaiting(x.procs, x.procs[x.curr].pid, |x.procs|);
    if w >= 0 {
      OneSlotChanges(x.procs, x.nprocs, w, Runnable);
    }
    var r := SlotOfPid(x.procs, x.calls(x.vm).msg.receiver);
    if r < |x.procs| && x.procs[r].status == WaitToRecv {
      OneSlotChanges(x.procs, x.nprocs, r, Runnable);
    }
  }

  lemma PhaseSlots(s: State, id: int, ctrlC: bool, i: nat)
    requires Inv(s) && i < MAX_NPROCESS && i != s.curr
    ensures var ph := PhaseOf(s, id, ctrlC);
            && (ph.Stay? ==> ph.x.procs[i] == s.procs[i])
            && (ph.Leave? ==> MayWake(s.procs[i], ph.y.procs[i]))
  {
    hide PidsOk, NoLostRendezvous, BeforeYieldSend, BeforeYieldRecv;
    SavedInv(s);
    WaitersOnly(Taken(Saved(s)), i);
  }

  /** ... and then it may be picked to run. */
  lemma EntrySlots(s: State, id: int, ctrlC: bool, i: nat)
    requires Inv(s) && KernelEntry(s, id, ctrlC).Go? && i < MAX_NPROCESS && i != s.curr
    ensures var p, p' := s.procs[i], KernelEntry(s, id, ctrlC).s.procs[i];
            && p'.pid == p.pid
            && (MayWake(p, p') || (p'.status == Running && (Schedulable(p.status) || p.status == WaitToSend || p.status == WaitToRecv)))
  {
    hide Interrupt, Yield;
    EntryByPhase(s, id, ctrlC);
    PhaseSlots(s, id, ctrlC, i);
    var ph := PhaseOf(s, id, ctrlC);
    if ph.Leave? {
      YieldEffect(ph.y);
    }
  }

  // ---- Bounded waiting ----

  /** How many places on from `curr` slot `i` comes up, from 1 to MAX_NPROCESS. */
  ghost function Distance(curr: nat, i: nat): (d: nat)
    requires curr < MAX_NPROCESS && i < MAX_NPROCESS
    ensures 1 <= d <= MAX_NPROCESS && After(curr, d) == i
  {
    if i > curr then i - curr else i - curr + MAX_NPROCESS
  }

  /** The slot a yield in state `y` picks. */
  ghost function Picked(y: State): (i: nat)
    requires Shape(y)
    ensures i < MAX_NPROCESS
  {
    After(y.curr, NextAfter(y.procs, y.curr, 1))
  }

  /** A yield that passes over a schedulable slot brings it closer. */
  lemma YieldCloses(y: State, i: nat)
    requires Shape(y) && i < MAX_NPROCESS && Schedulable(y.procs[i].status)
    ensures Picked(y) == i || Distance(Picked(y), i) < Distance(y.curr, i)
  {
  }

  /** A step in which the kernel yields, and the state in which it does. */
  ghost predicate Leaves(s: State, e: Event)
    requires Shape(s)
  {
    e.Trap? && PhaseOf(s.(cpu := e.cpu), e.id, e.ctrlC).Leave?
  }

  ghost function LeftIn(s: State, e: Event): (y: State)
    requires Shape(s) && Leaves(s, e)
  {
    PhaseOf(s.(cpu := e.cpu), e.id, e.ctrlC).y
  }

  /** The current slot changes only by a yield, which goes on from it to the slot it picks. */
  lemma CurrMoves(s: State, e: Event)
    requires Inv(s) && Enabled(s, e) && Do(s, e).Go?
    ensures Leaves(s, e) ==> Shape(LeftIn(s, e)) && LeftIn(s, e).curr == s.curr && Do(s, e).s.curr == Picked(LeftIn(s, e))
    ensures !Leaves(s, e) ==> Do(s, e).s.curr == s.curr
  {
    hide Interrupt;
    if e.Trap? {
      EntryByPhase(s.(cpu := e.cpu), e.id, e.ctrlC);
    }
  }

  /** The system call a step makes. */
  ghost function CallOf(s: State, e: Event): (call: int) {
    if !e.Trap? || e.id != INTR_ID_SOFT || (e.ctrlC && s.vm >= GPID_USER_START) then SYS_UNUSED else s.calls(s.vm).kind
  }

  /** Some slot has the pid the message is for. */
  ghost predicate Addressed(s: State)
    requires Shape(s)
  {
    exists j :: 0 <= j < MAX_NPROCESS && s.procs[j].pid == s.calls(s.procs[s.curr].pid).msg.receiver
  }

  /** A timer interrupt of the shell or of a user process that is not being interrupted from the terminal. */
  ghost predicate Preempted(s: State, e: Event)
    requires Shape(s)
  {
    var me := s.procs[s.curr].pid;
    e.Trap? && e.id == INTR_ID_TIMER && me >= GPID_SHELL && !(e.ctrlC && me >= GPID_USER_START)
  }

  /** The steps in which a process gives up the CPU: it is preempted, receives, or sends to somebody. */
  ghost predicate GivesUp(s: State, e: Event)
    requires Shape(s)
  {
    Preempted(s, e) || CallOf(s, e) == SYS_RECV || (CallOf(s, e) == SYS_SEND && Addressed(s))
  }

  /** These are the steps in which the kernel yields, and there are no others. */
  lemma LeavesIff(s: State, e: Event)
    requires Inv(s)
    ensures Leaves(s, e) <==> GivesUp(s, e)
  {
    hide PidsOk, NoLostRendezvous, SlotOfPid, BeforeYieldSend, BeforeYieldRecv;
    if e.Trap? {
      assert forall j :: 0 <= j < MAX_NPROCESS ==> Saved(s.(cpu := e.cpu)).procs[j].pid == s.procs[j].pid;
    }
  }

  /** How many of the steps from `m` to `n` give up the CPU. */
  ghost function Yields(ss: seq<State>, es: seq<Event>, m: nat, n: nat): (c: nat)
    requires IsRun(ss, es) && m <= n <= |es|
    decreases n - m
  {
    if m == n then 0 else (if GivesUp(ss[m], es[m]) then 1 else 0) + Yields(ss, es, m + 1, n)
  }

  /** How many of them are timer interrupts. */
  ghost function Preemptions(ss: seq<State>, es: seq<Event>, m: nat, n: nat): (c: nat)
    requires IsRun(ss, es) && m <= n <= |es|
    ensures c <= Yields(ss, es, m, n)
    decreases n - m
  {
    if m == n then 0 else (if Preempted(ss[m], es[m]) then 1 else 0) + Preemptions(ss, es, m + 1, n)
  }

  ghost predicate CanRun(y: State, i: nat) { Shape(y) && i < MAX_NPROCESS && Schedulable(y.procs[i].status) }

  /** Over any run: a slot that can run whenever the kernel yields gets to run after as many yields as it is places away. */
  lemma {:induction false} RunsWithin(ss: seq<State>, es: seq<Event>, m: nat, n: nat, i: nat)
    requires IsRun(ss, es) && m <= n <= |es| && i < MAX_NPROCESS
    requires forall k :: m <= k < n && Leaves(ss[k], es[k]) ==> CanRun(LeftIn(ss[k], es[k]), i)
    requires Inv(ss[m]) && Yields(ss, es, m, n) >= Distance(ss[m].curr, i)
    ensures exists k :: m < k <= n && ss[k].curr == i
    decreases n - m
  {
    hide Do, Enabled, Distance, Inv, GivesUp;
    RunInv(ss, es, m + 1);
    CurrMoves(ss[m], es[m]);
    LeavesIff(ss[m], es[m]);
    assert Do(ss[m], es[m]) == Go(ss[m + 1]);
    if Leaves(ss[m], es[m]) {
      YieldCloses(LeftIn(ss[m], es[m]), i);
    }
    if ss[m + 1].curr != i {
      RunsWithin(ss, es, m + 1, n, i);
    }
  }

  /** Over any run: a process that stays ready or runnable while the CPU is given up eight times, whatever the others
      do, is then running. */
  lemma BoundedWaiting(ss: seq<State>, es: seq<Event>, m: nat, n: nat, i: nat)
    requires IsRun(ss, es) && m <= n <= |es| && i < MAX_NPROCESS
    requires forall k :: m <= k < n ==> Shape(ss[k]) && (ss[k].procs[i].status == Ready || ss[k].procs[i].status == Runnable)
    requires Yields(ss, es, m, n) >= MAX_NPROCESS
    ensures Shape(ss[n]) && ss[n].curr == i && ss[n].procs[i].status == Running
  {
    hide Do, Enabled;
    RunInv(ss, es, m);
    forall k | m <= k < n && Leaves(ss[k], es[k]) ensures CanRun(LeftIn(ss[k], es[k]), i) {
      RunInv(ss, es, k);
      PhaseSlots(ss[k].(cpu := es[k].cpu), es[k].id, es[k].ctrlC, i);
      EntryByPhase(ss[k].(cpu := es[k].cpu), es[k].id, es[k].ctrlC);
    }
    RunsWithin(ss, es, m, n, i);
    var k :| m < k <= n && ss[k].curr == i;
    RunInv(ss, es, k);
  }

  /** In particular while the timer interrupts the shell and user processes eight times. */
  lemma BoundedByTimer(ss: seq<State>, es: seq<Event>, m: nat, n: nat, i: nat)
    requires IsRun(ss, es) && m <= n <= |es| && i < MAX_NPROCESS
    requires forall k :: m <= k < n ==> Shape(ss[k]) && (ss[k].procs[i].status == Ready || ss[k].procs[i].status == Runnable)
    requires Preemptions(ss, es, m, n) >= MAX_NPROCESS
    ensures Shape(ss[n]) && ss[n].curr == i && ss[n].procs[i].status == Running
  {
    hide Yields;
    BoundedWaiting(ss, es, m, n, i);
  }
}
