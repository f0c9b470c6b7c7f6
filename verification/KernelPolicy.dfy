/** What the kernel decides: who runs next, who is interrupted, when it stops, which slots it hands out and takes back. */
module KernelPolicy {
  import opened KernelModel
  import opened KernelRuns

  // ---- When the machine stops ----

  ghost predicate SomeoneCanRun(procs: seq<Process>) { exists i :: 0 <= i < |procs| && Schedulable(procs[i].status) }

  /** A yield goes on exactly when some slot, the current one included, can run. */
  lemma YieldGoes(s: State)
    requires Shape(s)
    ensures Yield(s).Go? <==> SomeoneCanRun(s.procs)
  {
    if i :| 0 <= i < MAX_NPROCESS && Schedulable(s.procs[i].status) {
      assert After(s.curr, Distance(s.curr, i)) == i;
    }
  }

  /** Some slot other than the current one can run. */
  ghost predicate OtherCanRun(s: State)
    requires Shape(s)
  {
    exists i :: 0 <= i < MAX_NPROCESS && i != s.curr && Schedulable(s.procs[i].status)
  }

  /** Somebody waits to send to the current process. */
  ghost predicate SenderWaits(s: State)
    requires Shape(s)
  {
    exists i :: 0 <= i < MAX_NPROCESS && s.procs[i].status == WaitToSend && s.procs[i].receiver == s.procs[s.curr].pid
  }

  /** The process the current one sends to waits for a message. */
  ghost predicate ReceiverWaits(s: State)
    requires Shape(s)
  {
    exists i :: 0 <= i < MAX_NPROCESS && s.procs[i].status == WaitToRecv && s.procs[i].pid == s.calls(s.procs[s.curr].pid).msg.receiver
  }

  /** The machine stops for a call of unknown kind, or for one that leaves nobody who can run. */
  ghost predicate Stops(s: State, e: Event)
    requires Shape(s)
  {
    var me := s.procs[s.curr].pid;
    && e.Trap? && e.id == INTR_ID_SOFT && !(e.ctrlC && me >= GPID_USER_START)
    && var kind := s.calls(me).kind;
       || (kind != SYS_RECV && kind != SYS_SEND)
       || (kind == SYS_RECV && !SenderWaits(s) && !OtherCanRun(s))
       || (kind == SYS_SEND && Addressed(s) && !ReceiverWaits(s) && !OtherCanRun(s))
  }

  lemma RecvGoes(x: State)
    requires Inv(x)
    ensures SomeoneCanRun(BeforeYieldRecv(x).procs) <==> SenderWaits(x) || OtherCanRun(x)
  {
    hide NoLostRendezvous;
    var y, w := BeforeYieldRecv(x), LastWaiting(x.procs, x.procs[x.curr].pid, |x.procs|);
    if w >= 0 {
      OneSlotChanges(x.procs, x.nprocs, w, Runnable);
      assert Schedulable(y.procs[w].status);
    } else {
      assert forall i :: 0 <= i < MAX_NPROCESS ==> !WaitsFor(x.procs[i], x.procs[x.curr].pid);
      assert forall i :: 0 <= i < MAX_NPROCESS && i != x.curr ==> y.procs[i] == x.procs[i];
    }
  }

  lemma SendGoes(x: State)
    requires Inv(x) && SlotOfPid(x.procs, x.calls(x.vm).msg.receiver) < |x.procs|
    ensures SomeoneCanRun(BeforeYieldSend(x).procs) <==> ReceiverWaits(x) || OtherCanRun(x)
  {
    hide NoLostRendezvous, SlotOfPid;
    var y, r := BeforeYieldSend(x), SlotOfPid(x.procs, x.calls(x.vm).msg.receiver);
    if x.procs[r].status == WaitToRecv {
      OneSlotChanges(x.procs, x.nprocs, r, Runnable);
      assert Schedulable(y.procs[r].status);
    } else {
      assert forall i :: 0 <= i < MAX_NPROCESS && i != x.curr ==> y.procs[i] == x.procs[i];
    }
  }

  /** Saving the context and taking the call change nothing that these conditions look at. */
  lemma SameConditions(s: State, cpu: Context)
    requires Inv(s)
    ensures var x := Taken(Saved(s.(cpu := cpu)));
            && Inv(x) && (SenderWaits(x) <==> SenderWaits(s)) && (ReceiverWaits(x) <==> ReceiverWaits(s))
            && (OtherCanRun(x) <==> OtherCanRun(s)) && (SomeoneCanRun(x.procs) <==> SomeoneCanRun(s.procs))
  {
    hide PidsOk, NoLostRendezvous;
    SavedInv(s.(cpu := cpu));
    var x := Taken(Saved(s.(cpu := cpu)));
    assert forall i :: 0 <= i < MAX_NPROCESS ==> x.procs[i] == s.procs[i].(context := x.procs[i].context);
  }

  /** A trap stops the machine exactly in these cases; so a timer interrupt never does. */
  lemma StopsIff(s: State, e: Event)
    requires Inv(s) && e.Trap?
    ensures Do(s, e) == Halt <==> Stops(s, e)
  {
    hide PidsOk, NoLostRendezvous, Yield, SlotOfPid, BeforeYieldSend, BeforeYieldRecv, SenderWaits, ReceiverWaits, OtherCanRun;
    var x := Taken(Saved(s.(cpu := e.cpu)));
    SameConditions(s, e.cpu);
    LeavesIff(s, e);
    if Leaves(s, e) {
      EntryByPhase(s.(cpu := e.cpu), e.id, e.ctrlC);
      YieldGoes(LeftIn(s, e));
      if CallOf(s, e) == SYS_RECV {
        RecvGoes(x);
      } else if CallOf(s, e) == SYS_SEND {
        SendGoes(x);
      } else {
        assert Schedulable(Saved(s.(cpu := e.cpu)).procs[s.curr].status);
      }
    }
  }

  // ---- Who is interrupted ----

  /** An interrupt the kernel does not act on: the timer while one of the servers runs, any while the terminal
      interrupts a user process, and all that are neither timer nor software interrupts. */
  ghost predicate Ignored(s: State, e: Event)
    requires Shape(s)
  {
    var me := s.procs[s.curr].pid;
    e.Trap? &&
    (|| (e.id == INTR_ID_TIMER && me < GPID_SHELL)
     || (e.ctrlC && me >= GPID_USER_START)
     || (e.id != INTR_ID_TIMER && e.id != INTR_ID_SOFT))
  }

  /** The same process goes on, and nothing has changed. */
  lemma IgnoredReturns(s: State, e: Event)
    requires Inv(s) && Ignored(s, e)
    ensures Do(s, e) == Go(s.(cpu := e.cpu, procs := s.procs[s.curr := s.procs[s.curr].(context := e.cpu)]))
  {
  }

  /** The slot `n` places on from `curr`, around a table of eight. */
  function Place(curr: nat, n: nat): (i: nat)
    requires curr < MAX_NPROCESS && n <= MAX_NPROCESS
    ensures i < MAX_NPROCESS
  {
    if curr + n < MAX_NPROCESS then curr + n else curr + n - MAX_NPROCESS
  }

  /** Slot `i` is the first behind `curr`, in cyclic order and with `curr` last, that can run. */
  ghost predicate FirstBehind(procs: seq<Process>, curr: nat, i: nat)
    requires |procs| == MAX_NPROCESS && curr < MAX_NPROCESS
  {
    exists d :: 1 <= d <= MAX_NPROCESS && i == Place(curr, d) && Schedulable(procs[Place(curr, d)].status) &&
                forall m :: 1 <= m < d ==> !Schedulable(procs[Place(curr, m)].status)
  }

  lemma PickedIsFirst(y: State)
    requires Shape(y) && SomeoneCanRun(y.procs)
    ensures FirstBehind(y.procs, y.curr, Picked(y))
  {
    YieldGoes(y);
    var d := NextAfter(y.procs, y.curr, 1);
    assert forall m :: 1 <= m <= MAX_NPROCESS ==> Place(y.curr, m) == After(y.curr, m);
    assert Place(y.curr, d) == Picked(y);
  }

  /** A timer interrupt of the shell or a user process: the next one that can run takes over, or the same one goes on. */
  lemma TimerPreempts(s: State, e: Event)
    requires Inv(s) && Preempted(s, e)
    ensures Do(s, e).Go?
    ensures var s' := Do(s, e).s;
            && Shape(s') && FirstBehind(s.procs, s.curr, s'.curr) && s'.procs[s'.curr].status == Running
            && s'.vm == s'.procs[s'.curr].pid == s.procs[s'.curr].pid && s'.calls == s.calls
            && (s'.curr != s.curr ==> s'.procs[s.curr] == s.procs[s.curr].(context := e.cpu, status := Runnable))
            && forall i :: 0 <= i < MAX_NPROCESS && i != s.curr && i != s'.curr ==> s'.procs[i] == s.procs[i]
  {
    hide PidsOk, NoLostRendezvous, Yield, NextAfter;
    StopsIff(s, e);
    EntryByPhase(s.(cpu := e.cpu), e.id, e.ctrlC);
    var y := Saved(s.(cpu := e.cpu));
    assert forall i :: 0 <= i < MAX_NPROCESS ==> y.procs[i].status == s.procs[i].status;
    assert Schedulable(y.procs[s.curr].status);
    YieldEffect(y);
    PickedIsFirst(y);
    SameStatus(y.procs, s.procs, s.curr, Picked(y));
  }

  lemma SameStatus(procs: seq<Process>, procs': seq<Process>, curr: nat, i: nat)
    requires |procs| == |procs'| == MAX_NPROCESS && curr < MAX_NPROCESS && FirstBehind(procs, curr, i)
    requires forall j :: 0 <= j < MAX_NPROCESS ==> procs'[j].status == procs[j].status
    ensures FirstBehind(procs', curr, i)
  {
    var d :| 1 <= d <= MAX_NPROCESS && i == Place(curr, d) && Schedulable(procs[Place(curr, d)].status) &&
             forall m :: 1 <= m < d ==> !Schedulable(procs[Place(curr, m)].status);
    assert Schedulable(procs'[Place(curr, d)].status);
  }

  lemma PhasePids(s: State, id: int, ctrlC: bool, i: nat)
    requires Inv(s) && i < MAX_NPROCESS
    ensures var ph := PhaseOf(s, id, ctrlC);
            && PhaseOk(ph)
            && (ph.Stay? ==> ph.x.procs[i].pid == s.procs[i].pid && ph.x.nprocs == s.nprocs)
            && (ph.Leave? ==> ph.y.procs[i].pid == s.procs[i].pid && ph.y.nprocs == s.nprocs)
  {
    hide PidsOk, NoLostRendezvous, SlotOfPid, LastWaiting, Yield;
  }

  /** A step keeps every pid in its slot, unless it hands out a new one. */
  lemma PidsKept(s: State, e: Event, i: nat)
    requires Inv(s) && Enabled(s, e) && Do(s, e).Go? && i < MAX_NPROCESS && !e.Spawn?
    ensures Shape(Do(s, e).s) && Do(s, e).s.procs[i].pid == s.procs[i].pid && Do(s, e).s.nprocs == s.nprocs
  {
    hide PidsOk, NoLostRendezvous, Yield, Interrupt;
    if e.Trap? {
      EntryByPhase(s.(cpu := e.cpu), e.id, e.ctrlC);
      PhasePids(s.(cpu := e.cpu), e.id, e.ctrlC, i);
      if Leaves(s, e) {
        YieldEffect(LeftIn(s, e));
      }
    }
  }

  /** Over any run, a server (a process with a pid below the shell's) stops being the one that runs only by a call of
      its own. */
  lemma ServersNotPreempted(ss: seq<State>, es: seq<Event>, n: nat)
    requires IsRun(ss, es) && n < |es| && ss[n].procs[ss[n].curr].pid < GPID_SHELL
    requires !(CallOf(ss[n], es[n]) == SYS_RECV || CallOf(ss[n], es[n]) == SYS_SEND)
    ensures Shape(ss[n + 1]) && ss[n + 1].curr == ss[n].curr && ss[n + 1].procs[ss[n].curr].pid == ss[n].procs[ss[n].curr].pid
  {
    hide KernelEntry, Enabled, Alloc;
    RunInv(ss, es, n);
    RunInv(ss, es, n + 1);
    assert Do(ss[n], es[n]) == Go(ss[n + 1]);
    LeavesIff(ss[n], es[n]);
    CurrMoves(ss[n], es[n]);
    if es[n].Spawn? {
      SpawnExact(ss[n]);
    } else {
      PidsKept(ss[n], es[n], ss[n].curr);
    }
  }

  // ---- Whose message is received ----

  /** Slot `w` is the highest whose process waits to send to the current one. */
  ghost predicate HighestSender(s: State, w: nat)
    requires Shape(s)
  {
    && w < MAX_NPROCESS && s.procs[w].status == WaitToSend && s.procs[w].receiver == s.procs[s.curr].pid
    && forall i :: w < i < MAX_NPROCESS ==> !(s.procs[i].status == WaitToSend && s.procs[i].receiver == s.procs[s.curr].pid)
  }

  /** A call to receive takes the message of that process, which goes on; every other sender keeps waiting. */
  lemma HighestSenderFirst(s: State, e: Event, w: nat)
    requires Inv(s) && CallOf(s, e) == SYS_RECV && HighestSender(s, w)
    ensures Do(s, e).Go?
    ensures var s' := Do(s, e).s;
            && Shape(s') && s'.calls(s.procs[s.curr].pid).msg == s.calls(s.procs[w].pid).msg
            && (s'.procs[w].status == Runnable || s'.procs[w].status == Running)
            && forall i :: 0 <= i < MAX_NPROCESS && i != w && s.procs[i].status == WaitToSend ==> s'.procs[i] == s.procs[i]
  {
    hide NoLostRendezvous, Yield, LastWaiting, BeforeYieldSend, SlotOfPid, PidsOk;
    StopsIff(s, e);
    var x := Taken(Saved(s.(cpu := e.cpu)));
    SavedInv(s.(cpu := e.cpu));
    TakesLast(x, w);
    BeforeYieldRecvInv(x);
    YieldEffect(BeforeYieldRecv(x));
  }

  lemma TakesLast(x: State, w: nat)
    requires Inv(x) && HighestSender(x, w)
    ensures var y := BeforeYieldRecv(x);
            && |y.procs| == |x.procs| && y.procs == x.procs[w := x.procs[w].(status := Runnable)]
            && y.calls(x.procs[x.curr].pid).msg == x.calls(x.procs[w].pid).msg
  {
    hide NoLostRendezvous, LastWaiting;
    var i := LastWaiting(x.procs, x.procs[x.curr].pid, |x.procs|);
    assert WaitsFor(x.procs[w], x.procs[x.curr].pid);
    assert i == w;
    OneSlotChanges(x.procs, x.nprocs, w, Runnable);
  }

  // ---- Which slots are handed out and taken back ----

  /** Slot `i` is the lowest unused one. */
  ghost predicate LowestUnused(procs: seq<Process>, i: nat) {
    i < |procs| && procs[i].status == Unused && forall j :: 0 <= j < i ==> procs[j].status != Unused
  }

  /** The lowest unused slot gets a pid no slot has, and waits to be loaded. */
  ghost predicate Spawned(s: State, s': State, i: nat)
    requires Shape(s)
  {
    && LowestUnused(s.procs, i) && Shape(s')
    && s'.procs[i].pid == s.nprocs + 1 && s'.procs[i].status == Loading && s'.nprocs == s.nprocs + 1
    && (forall j :: 0 <= j < MAX_NPROCESS ==> s.procs[j].pid != s.nprocs + 1)
    && (forall j :: 0 <= j < MAX_NPROCESS && j != i ==> s'.procs[j] == s.procs[j])
    && s'.curr == s.curr && s'.vm == s.vm && s'.calls == s.calls && s'.cpu == s.cpu
  }

  lemma SpawnExact(s: State)
    requires Inv(s)
    ensures Alloc(s) == Halt <==> forall i :: 0 <= i < MAX_NPROCESS ==> s.procs[i].status != Unused
    ensures Alloc(s).Go? ==> exists i :: Spawned(s, Alloc(s).s, i)
  {
    var i := FirstUnused(s.procs, 0);
    if i < MAX_NPROCESS {
      assert Spawned(s, Alloc(s).s, i);
    }
  }

  /** No slot with pid `p` can run or wait: it is unused, or still being loaded where that is allowed. */
  ghost predicate Quiet(s: State, p: int, loading: bool) {
    && Shape(s) && p <= s.nprocs
    && forall i :: 0 <= i < MAX_NPROCESS && s.procs[i].pid == p ==> s.procs[i].status == Unused || (loading && s.procs[i].status == Loading)
  }

  lemma QuietStep(s: State, e: Event, p: int, loading: bool)
    requires Inv(s) && Enabled(s, e) && Do(s, e).Go? && Quiet(s, p, loading) && e != MarkReady(p)
    ensures Quiet(Do(s, e).s, p, loading)
  {
    hide NoLostRendezvous, KernelEntry;
    if e.Spawn? {
      SpawnExact(s);
      var i :| Spawned(s, Do(s, e).s, i);
    } else {
      forall i: nat | i < MAX_NPROCESS
        ensures Shape(Do(s, e).s) && Do(s, e).s.procs[i].pid == s.procs[i].pid && Do(s, e).s.nprocs == s.nprocs
        ensures e.Trap? && i != s.curr && (s.procs[i].status == Unused || s.procs[i].status == Loading) ==> Do(s, e).s.procs[i] == s.procs[i]
      {
        PidsKept(s, e, i);
        if e.Trap? && i != s.curr {
          EntrySlots(s.(cpu := e.cpu), e.id, e.ctrlC, i);
        }
      }
    }
  }

  lemma {:induction false} QuietRun(ss: seq<State>, es: seq<Event>, m: nat, n: nat, p: int, loading: bool)
    requires IsRun(ss, es) && m <= n <= |es| && Quiet(ss[m], p, loading)
    requires forall k :: m <= k < n ==> es[k] != MarkReady(p)
    ensures Quiet(ss[n], p, loading)
    decreases n
  {
    hide Do, Enabled, Quiet;
    if m < n {
      QuietRun(ss, es, m, n - 1, p, loading);
      RunInv(ss, es, n - 1);
      assert Do(ss[n - 1], es[n - 1]) == Go(ss[n - 1 + 1]);
      QuietStep(ss[n - 1], es[n - 1], p, loading);
    }
  }

  /** Over any run, a process that has been created and not marked ready since is being loaded, or gone: it has not run. */
  lemma NotRunBeforeReady(ss: seq<State>, es: seq<Event>, m: nat, n: nat, i: nat)
    requires IsRun(ss, es) && m < n <= |es| && es[m].Spawn? && i < MAX_NPROCESS
    requires forall k :: m < k < n ==> es[k] != MarkReady(ss[m].nprocs + 1)
    ensures Shape(ss[n])
    ensures ss[n].procs[i].pid == ss[m].nprocs + 1 ==> ss[n].procs[i].status == Loading || ss[n].procs[i].status == Unused
  {
    RunInv(ss, es, m);
    SpawnExact(ss[m]);
    assert Do(ss[m], es[m]) == Go(ss[m + 1]);
    QuietRun(ss, es, m + 1, n, ss[m].nprocs + 1, true);
  }

  /** Freeing takes exactly the slots meant, and those alone. */
  lemma KillExact(s: State, e: Event, i: nat)
    requires Inv(s) && e.Kill? && i < MAX_NPROCESS
    ensures Do(s, e).Go?
    ensures var s', p := Do(s, e).s, s.procs[i];
            && s' == s.(procs := s'.procs) && |s'.procs| == |s.procs|
            && s'.procs[i] == if (if e.pid == -1 then p.pid >= GPID_USER_START else p.pid == e.pid) then p.(status := Unused) else p
  {
  }

  /** Over any run, a process that has been freed does not come back: not to run, and not to wait. */
  lemma FreedForGood(ss: seq<State>, es: seq<Event>, m: nat, n: nat, p: int, i: nat)
    requires IsRun(ss, es) && m < n <= |es| && es[m].Kill? && i < MAX_NPROCESS && p <= ss[m].nprocs
    requires es[m].pid == p != -1 || (es[m].pid == -1 && p >= GPID_USER_START)
    ensures Shape(ss[n])
    ensures ss[n].procs[i].pid == p ==> ss[n].procs[i].status == Unused
  {
    RunInv(ss, es, m);
    assert Do(ss[m], es[m]) == Go(ss[m + 1]);
    NeverReady(ss, es, m + 1, n, p);
  }

  /** A process with no slot to be loaded in cannot be marked ready. */
  lemma {:induction false} NeverReady(ss: seq<State>, es: seq<Event>, m: nat, n: nat, p: int)
    requires IsRun(ss, es) && m <= n <= |es| && Quiet(ss[m], p, false)
    ensures Quiet(ss[n], p, false)
    decreases n
  {
    hide Do;
    if m < n {
      NeverReady(ss, es, m, n - 1, p);
      RunInv(ss, es, n - 1);
      assert Do(ss[n - 1], es[n - 1]) == Go(ss[n - 1 + 1]);
      QuietStep(ss[n - 1], es[n - 1], p, false);
    }
  }
}
