/** The syscall areas of the kernel's state machine, in the memories that the software TLB gives to processes. */
module Syscalls {
  import opened Words
  import opened Layout
  import opened Paging
  import opened SoftTlb
  import opened Loader
  import K = KernelModel

  const SYSCALL_MSG_LEN: nat := 1024

  /** Where the area and its fields are in the first stack page: type, sender, receiver, content, return value. */
  const AREA: nat := SYSCALL_ARG - APPS_ARG
  const MSG: nat := AREA + 4
  const MSG_SIZE: nat := 8 + SYSCALL_MSG_LEN
  const RETVAL: nat := MSG + MSG_SIZE

  function MessageAt(page: Page): (msg: K.Message) {
    K.Message(AsInt(LoadWord(page, MSG)), AsInt(LoadWord(page, MSG + 4)), page[MSG + 8..MSG + MSG_SIZE])
  }

  function AreaAt(page: Page): (call: K.Syscall) {
    K.Syscall(AsInt(LoadWord(page, AREA)), MessageAt(page), AsInt(LoadWord(page, RETVAL)))
  }

  /** The private memories hold the areas `calls`. */
  ghost predicate Areas(tlb: Tlb, calls: int -> K.Syscall)
    requires tlb.Valid()
    reads tlb, tlb.dev, tlb.dev.slots, tlb.dev.pages, tlb.table
  {
    forall pid: int :: pid != 0 && STACK_PAGE in tlb.Memory(pid) ==> AreaAt(tlb.Memory(pid)[STACK_PAGE]) == calls(pid)
  }

  /** Copying the bytes of the message copies the message and nothing else. */
  lemma CopiedBytes(from: Page, to: Page)
    ensures AreaAt(PutBytes(to, MSG, from[MSG..MSG + MSG_SIZE])) == AreaAt(to).(msg := MessageAt(from))
  {
    hide AsInt;
    var page := PutBytes(to, MSG, from[MSG..MSG + MSG_SIZE]);
    assert forall i :: MSG <= i < MSG + MSG_SIZE ==> page[i] == from[i];
    assert page[MSG + 8..MSG + MSG_SIZE] == from[MSG + 8..MSG + MSG_SIZE];
  }

  /** The two switches around the copy in `proc_send` and `proc_recv`: the memories take the step that the state machine's
      `CopyMessage` takes, and no byte of any other memory changes. */
  method CopyMessage(tlb: Tlb, from: int, to: int, ghost s: K.State)
    requires tlb.Valid() && from != 0 && to != 0 && STACK_PAGE in tlb.Memory(from) && STACK_PAGE in tlb.Memory(to)
    requires Areas(tlb, s.calls)
    modifies tlb`currVmPid, tlb`mem, tlb.dev`card, tlb.dev.slots, tlb.dev.pages
    ensures tlb.Valid() && tlb.currVmPid == K.CopyMessage(s, from, to).vm && Areas(tlb, K.CopyMessage(s, from, to).calls)
    ensures var page := PutBytes(old(tlb.Memory(to)[STACK_PAGE]), MSG, old(tlb.Memory(from)[STACK_PAGE])[MSG..MSG + MSG_SIZE]);
            tlb.Memory(to) == old(tlb.Memory(to))[STACK_PAGE := page]
    ensures forall q: int :: q != to ==> tlb.Memory(q) == old(tlb.Memory(q))
  {
    hide Tlb.Valid, Tlb.Memory, AreaAt, PutBytes;
    tlb.SoftTlbSwitch(from);
    var tmp := tlb.mem(STACK_PAGE)[MSG..MSG + MSG_SIZE];
    tlb.SoftTlbSwitch(to);
    CopiedBytes(tlb.Memory(from)[STACK_PAGE], tlb.Memory(to)[STACK_PAGE]);
    AreaMessage(tlb.Memory(from)[STACK_PAGE]);
    tlb.UserStore(STACK_PAGE, PutBytes(tlb.mem(STACK_PAGE), MSG, tmp));
  }

  lemma AreaMessage(page: Page)
    ensures AreaAt(page).msg == MessageAt(page)
  {
  }

  /** The fields the kernel sets in the area of the process mapped in. */
  datatype Field = Kind | Sender | Retval

  function Offset(f: Field): (at: nat)
    ensures at + 4 <= PAGE_SIZE
  {
    match f case Kind => AREA case Sender => MSG case Retval => RETVAL
  }

  function With(call: K.Syscall, f: Field, v: int): (call': K.Syscall) {
    match f
    case Kind => call.(kind := v)
    case Sender => call.(msg := call.msg.(sender := v))
    case Retval => call.(retval := v)
  }

  lemma StoredField(page: Page, f: Field, w: Word)
    ensures AreaAt(StoreWord(page, Offset(f), w)) == With(AreaAt(page), f, AsInt(w))
  {
    hide AsInt;
    var page' := StoreWord(page, Offset(f), w);
    assert page'[MSG + 8..MSG + MSG_SIZE] == page[MSG + 8..MSG + MSG_SIZE];
  }

  /** A store to one field, by the kernel, while the process is mapped in. */
  method SetField(tlb: Tlb, f: Field, w: Word, ghost s: K.State)
    requires tlb.Valid() && tlb.currVmPid == s.vm && STACK_PAGE in tlb.Memory(s.vm) && Areas(tlb, s.calls)
    modifies tlb`mem
    ensures tlb.Valid() && Areas(tlb, At(s.calls, s.vm, With(s.calls(s.vm), f, AsInt(w))))
    ensures forall q: int :: q != s.vm ==> tlb.Memory(q) == old(tlb.Memory(q))
  {
    ghost var page := tlb.Memory(s.vm)[STACK_PAGE];
    MappedIn(tlb, STACK_PAGE);
    hide Tlb.Memory, AreaAt, StoreWord;
    StoredField(page, f, w);
    tlb.UserStore(STACK_PAGE, StoreWord(tlb.mem(STACK_PAGE), Offset(f), w));
  }

  lemma MappedIn(tlb: Tlb, p: nat)
    requires tlb.Valid() && p in tlb.Memory(tlb.currVmPid)
    ensures tlb.mem(p) == tlb.Memory(tlb.currVmPid)[p]
  {
  }
}
