/** The kernel as a state machine: scheduling and synchronous message passing over eight process slots. */
module KernelModel {
  import opened Words
  import opened Layout

  const MAX_NPROCESS: nat := 8
  const NREGS: nat := 29

  const GPID_PROCESS := 1
  const GPID_SHELL := 4
  const GPID_USER_START := 5

  const INTR_ID_SOFT := 3
  const INTR_ID_TIMER := 7

  const SYS_UNUSED := 0
  const SYS_RECV := 1
  const SYS_SEND := 2

  /** The slots of a0 and a1 among the saved registers. */
  const REG_A0: nat := 8
  const REG_A1: nat := 9

  datatype Status = Unused | Loading | Ready | Running | Runnable | WaitToSend | WaitToRecv

  type Registers = r: seq<Word> | |r| == NREGS witness seq(NREGS, i => 0)

  datatype Context = Context(mepc: Word, regs: Registers)

  datatype Process = Process(pid: int, status: Status, context: Context, receiver: int)

  datatype Message = Message(sender: int, receiver: int, content: seq<Word>)

  /** What a process keeps at SYSCALL_ARG. */
  datatype Syscall = Syscall(kind: int, msg: Message, retval: int)

  /** `vm` is the process whose private memory is mapped in; `calls` gives each process's syscall area. */
  datatype State = State(procs: seq<Process>, curr: nat, nprocs: nat, vm: int, calls: int -> Syscall, cpu: Context)

  /** A fatal error stops the machine. */
  datatype Outcome = Halt | Go(s: State)

  predicate Schedulable(st: Status) { st == Ready || st == Running || st == Runnable }

  predicate Shape(s: State) { |s.procs| == MAX_NPROCESS && s.curr < MAX_NPROCESS }

  /** `proc_set_status` */
  function SetStatus(procs: seq<Process>, pid: int, st: Status): (procs': seq<Process>)
    ensures |procs'| == |procs|
    ensures forall i :: 0 <= i < |procs| ==> procs'[i] == if procs[i].pid == pid then procs[i].(status := st) else procs[i]
  {
    seq(|procs|, i requires 0 <= i < |procs| => if procs[i].pid == pid then procs[i].(status := st) else procs[i])
  }

  /** The slot `n` places after `curr`, around the table. */
  function After(curr: nat, n: nat): (i: nat)
    ensures i < MAX_NPROCESS
  {
    (curr + n) % MAX_NPROCESS
  }

  /** How many places on from `curr` the first schedulable slot is, from `n` places on; none gives MAX_NPROCESS + 1. */
  function NextAfter(procs: seq<Process>, curr: nat, n: nat): (d: nat)
    requires |procs| == MAX_NPROCESS && n <= MAX_NPROCESS + 1
    ensures n <= d <= MAX_NPROCESS + 1
    ensures d <= MAX_NPROCESS ==> Schedulable(procs[After(curr, d)].status)
    ensures forall m :: n <= m < d ==> !Schedulable(procs[After(curr, m)].status)
    decreases MAX_NPROCESS + 1 - n
  {
    if n == MAX_NPROCESS + 1 || Schedulable(procs[After(curr, n)].status) then n else NextAfter(procs, curr, n + 1)
  }

  function EntryContext(c: Context): (c': Context) {
    Context(APPS_ENTRY, c.regs[REG_A0 := APPS_ARG][REG_A1 := APPS_ARG + 4])
  }

  /** `proc_yield`: the next schedulable slot in cyclic order runs. */
  function Yield(s: State): (r: Outcome)
    requires Shape(s)
    ensures r.Go? ==> Shape(r.s)
  {
    var d := NextAfter(s.procs, s.curr, 1);
    if d > MAX_NPROCESS then Halt else
      var next := After(s.curr, d);
      var left := s.procs[s.curr];
      var procs1 := if left.status == Running then SetStatus(s.procs, left.pid, Runnable) else s.procs;
      var p := procs1[next];
      var procs2 := if p.status == Ready then procs1[next := p.(context := EntryContext(p.context))] else procs1;
      Go(s.(procs := SetStatus(procs2, p.pid, Running), curr := next, vm := p.pid))
  }

  /** The first slot with a given pid, or the table's length. */
  function SlotOfPid(procs: seq<Process>, pid: int): (i: nat)
    ensures i <= |procs|
    ensures i < |procs| ==> procs[i].pid == pid
    ensures forall j :: 0 <= j < i ==> procs[j].pid != pid
  {
    if procs == [] then 0 else if procs[0].pid == pid then 0 else 1 + SlotOfPid(procs[1..], pid)
  }

  predicate WaitsFor(p: Process, pid: int) { p.status == WaitToSend && p.receiver == pid }

  /** The last slot below `n` waiting to send to `pid`, or -1. */
  function LastWaiting(procs: seq<Process>, pid: int, n: nat): (i: int)
    requires n <= |procs|
    ensures -1 <= i < n
    ensures i >= 0 ==> WaitsFor(procs[i], pid)
    ensures forall j :: 0 <= j < n && i < j ==> !WaitsFor(procs[j], pid)
  {
    if n == 0 then -1 else if WaitsFor(procs[n - 1], pid) then n - 1 else LastWaiting(procs, pid, n - 1)
  }

  /** Copy a message from the syscall area of one process to that of another, leaving the latter mapped in. */
  function CopyMessage(s: State, from: int, to: int): (s': State) {
    s.(calls := At(s.calls, to, s.calls(to).(msg := s.calls(from).msg)), vm := to)
  }

  /** How a handler ends: it stops the machine, returns to the same process, or yields. */
  datatype Phase = Stop | Stay(x: State) | Leave(y: State)

  function Finish(ph: Phase): (r: Outcome)
    requires ph.Leave? ==> Shape(ph.y)
  {
    match ph
    case Stop => Halt
    case Stay(x) => Go(x)
    case Leave(y) => Yield(y)
  }

  predicate PhaseOk(ph: Phase) {
    match ph
    case Stop => true
    case Stay(x) => Shape(x)
    case Leave(y) => Shape(y)
  }

  /** A send to a pid no slot has: the call fails, and the message keeps its sender's stamp. */
  function Refused(s: State): (x: State)
    requires Shape(s)
  {
    var call := s.calls(s.vm);
    var s1 := s.(calls := At(s.calls, s.vm, call.(msg := call.msg.(sender := s.procs[s.curr].pid))));
    s1.(calls := At(s1.calls, s.vm, s1.calls(s.vm).(retval := -1)))
  }

  /** The state in which `proc_send` yields. */
  function BeforeYieldSend(s: State): (y: State)
    requires Shape(s) && SlotOfPid(s.procs, s.calls(s.vm).msg.receiver) < |s.procs|
  {
    var me, call := s.procs[s.curr].pid, s.calls(s.vm);
    var s1 := s.(calls := At(s.calls, s.vm, call.(msg := call.msg.(sender := me))));
    var to := call.msg.receiver;
    if s.procs[SlotOfPid(s.procs, to)].status != WaitToRecv then
      s1.(procs := s.procs[s.curr := s.procs[s.curr].(status := WaitToSend, receiver := to)])
    else
      CopyMessage(s1, me, to).(procs := SetStatus(s.procs, to, Runnable))
  }

  /** `proc_send` */
  function Send(s: State): (ph: Phase)
    requires Shape(s)
    ensures PhaseOk(ph)
  {
    if SlotOfPid(s.procs, s.calls(s.vm).msg.receiver) == |s.procs| then Stay(Refused(s)) else Leave(BeforeYieldSend(s))
  }

  /** The state in which `proc_recv` yields. */
  function BeforeYieldRecv(s: State): (y: State)
    requires Shape(s)
  {
    var me := s.procs[s.curr].pid;
    var i := LastWaiting(s.procs, me, |s.procs|);
    var sender := if i == -1 then -1 else s.procs[i].pid;
    if sender == -1 then s.(procs := s.procs[s.curr := s.procs[s.curr].(status := WaitToRecv)])
    else CopyMessage(s, sender, me).(procs := SetStatus(s.procs, sender, Runnable))
  }

  /** `proc_recv` */
  function Recv(s: State): (ph: Phase)
    requires Shape(s)
    ensures PhaseOk(ph)
  {
    Leave(BeforeYieldRecv(s))
  }

  /** The syscall area with the call taken out of it. */
  function Taken(s: State): (x: State) {
    s.(calls := At(s.calls, s.vm, s.calls(s.vm).(retval := 0, kind := SYS_UNUSED)))
  }

  /** `proc_syscall` */
  function SystemCall(s: State): (ph: Phase)
    requires Shape(s)
    ensures PhaseOk(ph)
  {
    var kind := s.calls(s.vm).kind;
    if kind == SYS_RECV then Recv(Taken(s))
    else if kind == SYS_SEND then Send(Taken(s))
    else Stop
  }

  /** `intr_entry`; `ctrlC` is what the terminal reports. */
  function Interrupt(s: State, id: int, ctrlC: bool): (ph: Phase)
    requires Shape(s)
    ensures PhaseOk(ph)
  {
    var me := s.procs[s.curr].pid;
    if id == INTR_ID_TIMER && me < GPID_SHELL then Stay(s)
    else if ctrlC && me >= GPID_USER_START then Stay(s)
    else if id == INTR_ID_SOFT then SystemCall(s)
    else if id == INTR_ID_TIMER then Leave(s)
    else Stay(s)
  }

  /** The context of the process left is kept in its slot. */
  function Saved(s: State): (x: State)
    requires Shape(s)
    ensures Shape(x)
  {
    s.(procs := s.procs[s.curr := s.procs[s.curr].(context := s.cpu)])
  }

  /** `kernel_entry` for an interrupt: save the context of the slot left, restore that of the slot entered. */
  function KernelEntry(s: State, id: int, ctrlC: bool): (r: Outcome)
    requires Shape(s)
  {
    match Finish(Interrupt(Saved(s), id, ctrlC))
    case Halt => Halt
    case Go(s') => Go(s'.(cpu := s'.procs[s'.curr].context))
  }

  /** The first unused slot from `n` on, or the table's length. */
  function FirstUnused(procs: seq<Process>, n: nat): (i: nat)
    requires n <= |procs|
    ensures n <= i <= |procs|
    ensures i < |procs| ==> procs[i].status == Unused
    ensures forall j :: n <= j < i ==> procs[j].status != Unused
    decreases |procs| - n
  {
    if n == |procs| || procs[n].status == Unused then n else FirstUnused(procs, n + 1)
  }

  /** `proc_alloc` */
  function Alloc(s: State): (r: Outcome)
    requires Shape(s)
  {
    var i := FirstUnused(s.procs, 0);
    if i == |s.procs| then Halt
    else Go(s.(procs := s.procs[i := s.procs[i].(pid := s.nprocs + 1, status := Loading)], nprocs := s.nprocs + 1))
  }

  /** The slots `proc_free` frees: those of one process, or with -1 those of all user processes. */
  predicate Freed(p: Process, pid: int) { if pid == -1 then p.pid >= GPID_USER_START else p.pid == pid }

  /** `proc_free` */
  function FreeProcs(procs: seq<Process>, pid: int): (procs': seq<Process>)
    ensures |procs'| == |procs|
    ensures forall i :: 0 <= i < |procs| ==> procs'[i] == if Freed(procs[i], pid) then procs[i].(status := Unused) else procs[i]
  {
    if pid != -1 then SetStatus(procs, pid, Unused) else
      seq(|procs|, i requires 0 <= i < |procs| =>
        if procs[i].pid >= GPID_USER_START && procs[i].status != Unused then procs[i].(status := Unused) else procs[i])
  }
}
