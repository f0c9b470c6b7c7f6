/** The kernel's handlers, with their loops over the process table, against the state machine. */
module Kernel {
  import opened Words
  import opened KernelModel

  class Kernel {
    /** `proc_set` */
    const procs: array<Process>
    var curr: nat
    var nprocs: nat
    var vm: int
    var calls: int -> Syscall
    var cpu: Context

    ghost predicate Valid()
      reads this
    {
      procs.Length == MAX_NPROCESS && curr < MAX_NPROCESS
    }

    ghost function Value(): (s: State)
      reads this, procs
      ensures Valid() ==> Shape(s)
    {
      State(procs[..], curr, nprocs, vm, calls, cpu)
    }

    /** `proc_set_status` */
    method SetStatusOf(pid: int, st: Status)
      requires Valid()
      modifies procs
      ensures procs[..] == SetStatus(old(procs[..]), pid, st)
    {
      for i := 0 to MAX_NPROCESS
        invariant forall j :: 0 <= j < MAX_NPROCESS ==>
                    procs[j] == if j < i && old(procs[j]).pid == pid then old(procs[j]).(status := st) else old(procs[j])
      {
        if procs[i].pid == pid { procs[i] := procs[i].(status := st); }
      }
    }

    /** `proc_alloc` */
    method ProcAlloc() returns (halted: bool, pid: int)
      requires Valid()
      modifies this`nprocs, procs
      ensures if halted then Alloc(old(Value())) == Halt else Alloc(old(Value())) == Go(Value()) && pid == nprocs
    {
      for i := 0 to MAX_NPROCESS
        invariant procs[..] == old(procs[..]) && nprocs == old(nprocs)
        invariant FirstUnused(procs[..], 0) >= i
      {
        if procs[i].status == Unused {
          nprocs := nprocs + 1;
          procs[i] := procs[i].(pid := nprocs);
          procs[i] := procs[i].(status := Loading);
          return false, nprocs;
        }
      }
      return true, 0;
    }

    /** `proc_free`, apart from the frames it returns to the memory manager. */
    method ProcFree(pid: int)
      requires Valid()
      modifies procs
      ensures Value() == old(Value()).(procs := FreeProcs(old(procs[..]), pid))
    {
      if pid != -1 {
        SetStatusOf(pid, Unused);
        return;
      }
      for i := 0 to MAX_NPROCESS
        invariant forall j :: 0 <= j < MAX_NPROCESS ==>
                    procs[j] == if j < i && old(procs[j]).pid >= GPID_USER_START && old(procs[j]).status != Unused
                                then old(procs[j]).(status := Unused) else old(procs[j])
      {
        if procs[i].pid >= GPID_USER_START && procs[i].status != Unused {
          procs[i] := procs[i].(status := Unused);
        }
      }
      assert procs[..] == FreeProcs(old(procs[..]), pid);
    }

    /** `proc_yield` */
    method ProcYield() returns (halted: bool)
      requires Valid()
      modifies this`curr, this`vm, procs
      ensures Valid()
      ensures if halted then Yield(old(Value())) == Halt else Yield(old(Value())) == Go(Value())
    {
      var nextIdx := -1;
      var i := 1;
      while i <= MAX_NPROCESS && nextIdx == -1
        invariant 1 <= i <= MAX_NPROCESS + 1
        invariant nextIdx == -1 ==> NextAfter(procs[..], curr, 1) == NextAfter(procs[..], curr, i)
        invariant nextIdx != -1 ==> i - 1 == NextAfter(procs[..], curr, 1) <= MAX_NPROCESS && nextIdx == After(curr, i - 1)
        decreases MAX_NPROCESS + 1 - i
      {
        if Schedulable(procs[(curr + i) % MAX_NPROCESS].status) {
          nextIdx := (curr + i) % MAX_NPROCESS;
        }
        i := i + 1;
      }
      if nextIdx == -1 { return true; }
      if procs[curr].status == Running { SetStatusOf(procs[curr].pid, Runnable); }
      ghost var procs1 := procs[..];
      curr := nextIdx;
      vm := procs[curr].pid;
      if procs[curr].status == Ready {
        procs[curr] := procs[curr].(context := EntryContext(procs[curr].context));
      }
      assert procs[..] == if procs1[curr].status == Ready then procs1[curr := procs1[curr].(context := EntryContext(procs1[curr].context))] else procs1;
      SetStatusOf(procs[curr].pid, Running);
      halted := false;
    }

    /** `proc_send` */
    method ProcSend() returns (halted: bool)
      requires Valid()
      modifies this`curr, this`vm, this`calls, procs
      ensures Valid()
      ensures if halted then Finish(Send(old(Value()))) == Halt else Finish(Send(old(Value()))) == Go(Value())
    {
      hide Yield, SetStatus, SlotOfPid;
      ghost var s := Value();
      calls := At(calls, vm, calls(vm).(msg := calls(vm).msg.(sender := procs[curr].pid)));
      var receiver := calls(vm).msg.receiver;
      for i := 0 to MAX_NPROCESS
        invariant Valid() && procs[..] == s.procs && curr == s.curr && vm == s.vm
        invariant calls == At(s.calls, s.vm, s.calls(s.vm).(msg := s.calls(s.vm).msg.(sender := s.procs[s.curr].pid)))
        invariant SlotOfPid(procs[..], receiver) >= i
      {
        if procs[i].pid == receiver {
          if procs[i].status != WaitToRecv {
            procs[curr] := procs[curr].(status := WaitToSend);
            procs[curr] := procs[curr].(receiver := receiver);
            assert procs[..] == s.procs[curr := s.procs[curr].(status := WaitToSend, receiver := receiver)];
          } else {
            vm := procs[curr].pid;
            var tmp := calls(vm).msg;
            vm := receiver;
            calls := At(calls, vm, calls(vm).(msg := tmp));
            SetStatusOf(receiver, Runnable);
          }
          halted := ProcYield();
          return;
        }
      }
      calls := At(calls, vm, calls(vm).(retval := -1));
      halted := false;
    }

    /** `proc_recv`: the scan has no break, so the waiting sender with the highest slot is taken. */
    method ProcRecv() returns (halted: bool)
      requires Valid()
      modifies this`curr, this`vm, this`calls, procs
      ensures Valid()
      ensures if halted then Finish(Recv(old(Value()))) == Halt else Finish(Recv(old(Value()))) == Go(Value())
    {
      hide Yield, SetStatus;
      ghost var s := Value();
      var sender := -1;
      for i := 0 to MAX_NPROCESS
        invariant var w := LastWaiting(procs[..], procs[curr].pid, i);
                  sender == if w == -1 then -1 else procs[w].pid
      {
        if procs[i].status == WaitToSend && procs[i].receiver == procs[curr].pid {
          sender := procs[i].pid;
        }
      }
      if sender == -1 {
        procs[curr] := procs[curr].(status := WaitToRecv);
        assert procs[..] == s.procs[curr := s.procs[curr].(status := WaitToRecv)];
      } else {
        vm := sender;
        var tmp := calls(vm).msg;
        vm := procs[curr].pid;
        calls := At(calls, vm, calls(vm).(msg := tmp));
        SetStatusOf(sender, Runnable);
      }
      halted := ProcYield();
    }

    /** `proc_syscall` */
    method ProcSyscall() returns (halted: bool)
      requires Valid()
      modifies this`curr, this`vm, this`calls, procs
      ensures Valid()
      ensures if halted then Finish(SystemCall(old(Value()))) == Halt else Finish(SystemCall(old(Value()))) == Go(Value())
    {
      var kind := calls(vm).kind;
      calls := At(calls, vm, calls(vm).(retval := 0, kind := SYS_UNUSED));
      if kind == SYS_RECV {
        halted := ProcRecv();
      } else if kind == SYS_SEND {
        halted := ProcSend();
      } else {
        halted := true;
      }
    }

    /** `kernel_entry` for an interrupt, with `intr_entry` inside. */
    method Entry(id: int, ctrlC: bool) returns (halted: bool)
      requires Valid()
      modifies this`curr, this`vm, this`calls, this`cpu, procs
      ensures Valid()
      ensures if halted then KernelEntry(old(Value()), id, ctrlC) == Halt else KernelEntry(old(Value()), id, ctrlC) == Go(Value())
    {
      procs[curr] := procs[curr].(context := cpu);
      halted := false;
      assert procs[..] == old(procs[..])[curr := old(procs[curr]).(context := cpu)];
      var me := procs[curr].pid;
      if id == INTR_ID_TIMER && me < GPID_SHELL {
      } else if ctrlC && me >= GPID_USER_START {
      } else {
        if id == INTR_ID_SOFT { halted := ProcSyscall(); }
        if id == INTR_ID_TIMER { halted := ProcYield(); }
      }
      if !halted { cpu := procs[curr].context; }
    }
  }
}
