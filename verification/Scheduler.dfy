/** The process table, the round robin scheduler, condition variables and the serial input
    channel as a step machine on one CPU.  A step is a stretch of kernel code between two points
    where control can change hands: a context switch, or a moment with no lock held, at which
    interrupts may be on.  Scheduling is cooperative. */
module Scheduler {
  import opened Basics

  const MAX_PROCESSES: int := 64
  const SERIAL_BUFFER_LENGTH: int := 128

  datatype ProcState = Unused | Used | Sleeping | Runnable | Running | Exited

  /** What a process may sleep on: the address of a condition variable's lock. */
  datatype Channel = Nowhere | ProcLock(slot: nat) | SerialLock

  /** Where a process continues when it runs next. */
  datatype Pc =
    | Fresh                              // jump_to_ring3, never ran
    | InUser                             // user code, or a system call holding no lock
    | Yielding                           // switched out by T_YEILD or sys_sleep
    | Waiting(target: nat, pid: nat)     // switched out by condvar_wait in proc_wait
    | Woken(target: nat, pid: nat)       // back from condvar_wait in proc_wait, no lock held
    | Reading(len: nat)                  // switched out by condvar_wait in internal_serial_read
    | WokenRead(len: nat)                // back from condvar_wait in internal_serial_read

  /** FPU register contents; only equality matters. */
  type Fpu = int
  const ZERO_FPU: Fpu := 0

  datatype Proc = Proc(
    pid: nat, state: ProcState, chan: Channel, exitStatus: int, pc: Pc, fpu: Fpu)

  /** Who is executing, and with which lock held across the last context switch. */
  datatype Mode =
    | Sched      // the scheduler, between two slots, no lock
    | Entered    // just switched into the running process, which holds its own lock
    | Free       // the running process, no lock
    | Left       // just switched back, the lock of the process still held

  datatype Returned = Returned(waiter: nat, pid: nat, status: int)

  datatype World = World(
    procs: seq<Proc>,
    running: Option<nat>,
    last: Option<nat>,         // last_running_process
    cursor: nat,               // the slot the scheduler is at
    mode: Mode,
    nextPid: nat,
    ring: seq<int>,            // unread serial input
    regs: Fpu,                 // the FPU registers
    // history, for stating properties
    accepted: seq<int>,        // characters put in the ring so far
    delivered: seq<int>,       // characters handed to readers so far
    fpuOf: seq<Fpu>,           // the FPU contents each process last computed
    exitCodes: map<nat, int>,  // argument of proc_exit, by pid
    log: seq<Returned>)        // what proc_wait returned

  // ----- the operations on the table

  /** proc_wakeup with everyone set: all sleepers on `chan`, the running process aside. */
  function WakeAll(procs: seq<Proc>, me: Option<nat>, chan: Channel): (r: seq<Proc>)
    ensures |r| == |procs|
  {
    seq(|procs|, i requires 0 <= i < |procs| =>
      if Some(i) != me && SleepsOn(procs[i], chan)
      then procs[i].(state := Runnable) else procs[i])
  }

  predicate SleepsOn(p: Proc, chan: Channel) {
    p.state == Sleeping && p.chan == chan
  }

  /** What the loop of proc_wakeup does to the table from slot `i` on. */
  function WakeFrom(procs: seq<Proc>, me: Option<nat>, chan: Channel, everyone: bool, i: nat): (r: seq<Proc>)
    requires i <= |procs|
    ensures |r| == |procs|
    decreases |procs| - i
  {
    if i == |procs| then procs
    else if Some(i) != me && SleepsOn(procs[i], chan) then
      var woken := procs[i := procs[i].(state := Runnable)];
      if everyone then WakeFrom(woken, me, chan, everyone, i + 1) else woken
    else WakeFrom(procs, me, chan, everyone, i + 1)
  }

  lemma {:induction false} WakeFromAt(procs: seq<Proc>, me: Option<nat>, chan: Channel, i: nat, j: nat)
    requires i <= |procs| && j < |procs|
    ensures WakeFrom(procs, me, chan, true, i)[j] == if j < i then procs[j] else WakeAll(procs, me, chan)[j]
    decreases |procs| - i
  {
    if i < |procs| {
      var q := if Some(i) != me && SleepsOn(procs[i], chan) then procs[i := procs[i].(state := Runnable)] else procs;
      WakeFromAt(q, me, chan, i + 1, j);
    }
  }

  lemma WakeFromIsWakeAll(procs: seq<Proc>, me: Option<nat>, chan: Channel)
    ensures WakeFrom(procs, me, chan, true, 0) == WakeAll(procs, me, chan)
  {
    forall j | 0 <= j < |procs| ensures WakeFrom(procs, me, chan, true, 0)[j] == WakeAll(procs, me, chan)[j] {
      WakeFromAt(procs, me, chan, 0, j);
    }
  }

  /** Without `everyone`, the first sleeper on the channel becomes runnable and nothing else changes. */
  lemma {:induction false} WakeFromFirst(procs: seq<Proc>, me: Option<nat>, chan: Channel, i: nat, k: nat)
    requires i <= k < |procs| && Some(k) != me && SleepsOn(procs[k], chan)
    requires forall j: nat :: i <= j < k && SleepsOn(procs[j], chan) ==> Some(j) == me
    ensures WakeFrom(procs, me, chan, false, i) == procs[k := procs[k].(state := Runnable)]
    decreases k - i
  {
    if i < k {
      WakeFromFirst(procs, me, chan, i + 1, k);
    }
  }

  /** First slot from `i` on whose pid is `pid`, or the table size. */
  function FindPid(procs: seq<Proc>, pid: nat, i: nat): (r: nat)
    requires i <= |procs|
    ensures i <= r <= |procs|
    ensures r < |procs| ==> procs[r].pid == pid
    ensures forall j :: i <= j < r ==> procs[j].pid != pid
    decreases |procs| - i
  {
    if i == |procs| || procs[i].pid == pid then i else FindPid(procs, pid, i + 1)
  }

  /** First unused slot from `i` on, or the table size. */
  function FindUnused(procs: seq<Proc>, i: nat): (r: nat)
    requires i <= |procs|
    ensures i <= r <= |procs|
    ensures r < |procs| ==> procs[r].state == Unused
    ensures forall j :: i <= j < r ==> procs[j].state != Unused
    decreases |procs| - i
  {
    if i == |procs| || procs[i].state == Unused then i else FindUnused(procs, i + 1)
  }

  function Min(a: nat, b: nat): (r: nat)
    ensures r <= a && r <= b && (r == a || r == b)
  {
    if a < b then a else b
  }

  // ----- steps

  datatype Action =
    | Visit                    // the scheduler looks at the slot under its cursor
    | Wrap                     // the scheduler starts over
    | Leave                    // the scheduler continues after a switch back
    | Resume                   // the process just switched to continues
    | SleepMore                // sys_sleep finds its time has not come
    | Yield                    // T_YEILD, or sys_sleep's first switch
    | Exit(code: int)          // proc_exit
    | Wait(pid: nat)           // proc_wait
    | Recheck                  // proc_wait or serial read after being woken
    | Read(len: nat)           // blocking serial read
    | ReadAsync(len: nat)      // non-blocking serial read
    | Exec(ok: bool)           // proc_allocate, then the rest of proc_exec, which succeeds or not
    | Receive(c: int)          // serial interrupt
    | Compute(f: Fpu)          // user code changes the FPU registers

  predicate WellFormed(w: World) {
    && |w.procs| == |w.fpuOf| == MAX_PROCESSES
    && (w.running.Some? ==> w.running.value < MAX_PROCESSES)
    && (w.last.Some? ==> w.last.value < MAX_PROCESSES)
  }

  /** The running process is executing with no lock held. */
  predicate InProcess(w: World) {
    WellFormed(w) && w.mode == Free && w.running.Some?
  }

  function Me(w: World): Proc
    requires WellFormed(w) && w.running.Some?
  {
    w.procs[w.running.value]
  }

  predicate Enabled(w: World, a: Action) {
    && WellFormed(w)
    && match a
       case Visit => w.mode == Sched && w.cursor < MAX_PROCESSES
       case Wrap => w.mode == Sched && w.cursor == MAX_PROCESSES
       case Leave => w.mode == Left && w.running.Some?
       case Resume => w.mode == Entered && w.running.Some?
       case SleepMore => w.mode == Entered && w.running.Some? && Me(w).pc == Yielding
       case Yield => InProcess(w) && Me(w).pc == InUser
       case Exit(_) => InProcess(w) && Me(w).pc == InUser
       // waiting for oneself takes one's own lock twice: the kernel panics
       case Wait(pid) => InProcess(w) && Me(w).pc == InUser && pid != Me(w).pid
       case Recheck => InProcess(w) && (Me(w).pc.Woken? || Me(w).pc.WokenRead?)
       case Read(len) => InProcess(w) && Me(w).pc == InUser
       case ReadAsync(len) => InProcess(w) && Me(w).pc == InUser
       case Exec(_) => InProcess(w) && Me(w).pc == InUser
       // with a lock held interrupts are off
       case Receive(_) => w.mode == Sched || InProcess(w)
       case Compute(_) => InProcess(w) && Me(w).pc == InUser
  }

  function SetMe(w: World, p: Proc): World
    requires WellFormed(w) && w.running.Some?
  {
    w.(procs := w.procs[w.running.value := p])
  }

  /** condvar_wait up to its context switch. */
  function SleepOn(w: World, chan: Channel, pc: Pc): World
    requires WellFormed(w) && w.running.Some?
  {
    SetMe(w, Me(w).(state := Sleeping, chan := chan, pc := pc)).(mode := Left)
  }

  /** The loop of proc_wait, entered with the lock of `target` held. */
  function WaitLoop(w: World, target: nat, pid: nat): World
    requires WellFormed(w) && w.running.Some?
  {
    if target < MAX_PROCESSES && w.procs[target].state == Exited then
      SetMe(w, Me(w).(pc := InUser)).(log := w.log + [Returned(Me(w).pid, pid, w.procs[target].exitStatus)])
    else
      SleepOn(w, ProcLock(target), Waiting(target, pid))
  }

  /** Copying out of the ring. */
  function Deliver(w: World, len: nat): World
    requires WellFormed(w) && w.running.Some?
  {
    var n := Min(len, |w.ring|);
    SetMe(w, Me(w).(pc := InUser)).(ring := w.ring[n..], delivered := w.delivered + w.ring[..n])
  }

  function ReadLoop(w: World, len: nat): World
    requires WellFormed(w) && w.running.Some?
  {
    if w.ring == [] then SleepOn(w, SerialLock, Reading(len)) else Deliver(w, len)
  }

  /** load_additional_data_if_needed on the FPU: the table and the registers after it. */
  function SwitchFpu(procs: seq<Proc>, last: Option<nat>, new_: nat, regs: Fpu): (seq<Proc>, Fpu)
    requires new_ < |procs| && (last.Some? ==> last.value < |procs|)
  {
    if last == Some(new_) then (procs, regs)
    else if last == None then (procs, procs[new_].fpu)
    else (procs[last.value := procs[last.value].(fpu := regs)], procs[new_].fpu)
  }

  function Dispatch(w: World): World
    requires WellFormed(w) && w.cursor < MAX_PROCESSES
  {
    var c := w.cursor;
    var (procs, regs) := SwitchFpu(w.procs[c := w.procs[c].(state := Running)], w.last, c, w.regs);
    w.(procs := procs, regs := regs, running := Some(c), last := Some(c), mode := Entered)
  }

  function Reap(w: World): World
    requires WellFormed(w) && w.cursor < MAX_PROCESSES
  {
    var c := w.cursor;
    w.(procs := w.procs[c := w.procs[c].(state := Unused, pid := 0, fpu := ZERO_FPU)],
       last := if w.last == Some(c) then None else w.last,
       cursor := c + 1)
  }

  function VisitSlot(w: World): World
    requires WellFormed(w) && w.cursor < MAX_PROCESSES
  {
    if w.procs[w.cursor].state == Runnable then Dispatch(w)
    else if w.procs[w.cursor].state == Exited then Reap(w)
    else w.(cursor := w.cursor + 1)
  }

  function AfterSwitch(w: World): World {
    w.(running := None, mode := Sched, cursor := w.cursor + 1)
  }

  function ResumeMe(w: World): World
    requires WellFormed(w) && w.running.Some?
  {
    var pc := Me(w).pc;
    var next := if pc.Waiting? then Woken(pc.target, pc.pid) else if pc.Reading? then WokenRead(pc.len) else InUser;
    SetMe(w, Me(w).(pc := next)).(mode := Free)
  }

  function YieldMe(w: World): World
    requires WellFormed(w) && w.running.Some?
  {
    SetMe(w, Me(w).(state := Runnable, pc := Yielding)).(mode := Left)
  }

  function ExitMe(w: World, code: int): World
    requires WellFormed(w) && w.running.Some?
  {
    var me := w.running.value;
    var procs := WakeAll(w.procs[me := Me(w).(exitStatus := code)], w.running, ProcLock(me));
    w.(procs := procs[me := procs[me].(state := Exited)], mode := Left,
       exitCodes := w.exitCodes[Me(w).pid := code])
  }

  function WaitPid(w: World, pid: nat): World
    requires WellFormed(w) && w.running.Some?
  {
    var t := FindPid(w.procs, pid, 0);
    if t == MAX_PROCESSES then w else WaitLoop(w, t, pid)
  }

  /** proc_allocate takes slot `i`; `ok` says whether the process is made runnable in the end. */
  function Allocated(w: World, i: nat, ok: bool): World
    requires WellFormed(w) && i < MAX_PROCESSES
  {
    var p := w.procs[i].(exitStatus := -1, fpu := ZERO_FPU);
    var q := if ok then p.(pid := w.nextPid, state := Runnable, pc := Fresh) else p.(pid := 0, state := Unused);
    w.(procs := w.procs[i := q], nextPid := w.nextPid + 1, fpuOf := w.fpuOf[i := ZERO_FPU])
  }

  function ExecChild(w: World, ok: bool): World
    requires WellFormed(w)
  {
    var i := FindUnused(w.procs, 0);
    if i == MAX_PROCESSES then w else Allocated(w, i, ok)
  }

  function ReceiveChar(w: World, c: int): World {
    if |w.ring| + 1 == SERIAL_BUFFER_LENGTH then w
    else
      w.(ring := w.ring + [c], accepted := w.accepted + [c], procs := WakeAll(w.procs, w.running, SerialLock))
  }

  function Step(w: World, a: Action): World
    requires Enabled(w, a)
  {
    match a
    case Visit => VisitSlot(w)
    case Wrap => w.(cursor := 0)
    case Leave => AfterSwitch(w)
    case Resume => ResumeMe(w)
    case SleepMore => SetMe(w, Me(w).(state := Runnable)).(mode := Left)
    case Yield => YieldMe(w)
    case Exit(code) => ExitMe(w, code)
    case Wait(pid) => WaitPid(w, pid)
    case Recheck =>
      if Me(w).pc.Woken? then WaitLoop(w, Me(w).pc.target, Me(w).pc.pid) else ReadLoop(w, Me(w).pc.len)
    case Read(len) => if len == 0 then w else ReadLoop(w, len)
    case ReadAsync(len) => if len == 0 || w.ring == [] then w else Deliver(w, len)
    case Exec(ok) => ExecChild(w, ok)
    case Receive(c) => ReceiveChar(w, c)
    case Compute(f) => w.(regs := f, fpuOf := w.fpuOf[w.running.value := f])
  }

  // ----- what every step keeps

  /** The slot the scheduler looks at next. */
  function NextSlot(w: World): nat {
    var n := if w.mode == Sched then w.cursor else w.cursor + 1;
    if n >= MAX_PROCESSES then 0 else n
  }

  /** Visits until slot `i` is looked at, starting at slot `from`. */
  function Visits(from: nat, i: nat): int {
    if from <= i then i - from else i + MAX_PROCESSES - from
  }

  predicate Suspended(pc: Pc) {
    pc.Fresh? || pc.Yielding? || pc.Waiting? || pc.Reading?
  }

  /** Exactly the process named by running_process is Running, and it is the one under the cursor. */
  ghost predicate ModeInv(w: World) {
    && WellFormed(w)
    && w.cursor <= MAX_PROCESSES
    && (w.mode == Sched <==> w.running == None)
    && (w.running.Some? ==> w.running.value == w.cursor)
    && (forall i :: 0 <= i < MAX_PROCESSES ==> RunningOk(w, i))
  }

  ghost predicate RunningOk(w: World, i: nat)
    requires WellFormed(w) && i < MAX_PROCESSES
  {
    w.procs[i].state == Running <==> w.running == Some(i) && (w.mode == Entered || w.mode == Free)
  }

  ghost predicate PcOk(w: World, i: nat)
    requires WellFormed(w) && i < MAX_PROCESSES
  {
    var p := w.procs[i];
    && p.state != Used
    && (p.state == Runnable ==> Suspended(p.pc))
    && (p.state == Sleeping ==> p.pc.Waiting? || p.pc.Reading?)
    && (p.state == Running && w.mode == Entered ==> Suspended(p.pc))
    && (p.state == Running && w.mode == Free ==> !Suspended(p.pc))
  }

  ghost predicate PcInv(w: World)
    requires WellFormed(w)
  {
    forall i :: 0 <= i < MAX_PROCESSES ==> PcOk(w, i)
  }

  ghost predicate PidOk(w: World, i: nat)
    requires WellFormed(w) && i < MAX_PROCESSES
  {
    && w.procs[i].pid < w.nextPid
    && (w.procs[i].pid == 0 <==> w.procs[i].state == Unused)
  }

  ghost predicate PidsDiffer(w: World, i: nat, j: nat)
    requires WellFormed(w) && i < MAX_PROCESSES && j < MAX_PROCESSES
  {
    i != j && w.procs[i].pid != 0 ==> w.procs[i].pid != w.procs[j].pid
  }

  /** Pids of processes in the table are non-zero, issued and distinct. */
  ghost predicate PidInv(w: World)
    requires WellFormed(w)
  {
    && w.nextPid >= 1
    && (forall i :: 0 <= i < MAX_PROCESSES ==> PidOk(w, i))
    && (forall i, j :: 0 <= i < MAX_PROCESSES && 0 <= j < MAX_PROCESSES ==> PidsDiffer(w, i, j))
  }

  /** Process `p` is in proc_wait. */
  predicate InWait(p: Proc) {
    (p.state == Sleeping || p.state == Runnable || p.state == Running) && (p.pc.Waiting? || p.pc.Woken?)
  }

  /** A process in proc_wait for a non-zero pid: its target is still in its slot; asleep means not
      exited yet; awake means exited, and the scheduler comes to the waiter before the target. */
  ghost predicate WaiterOk(w: World, i: nat)
    requires WellFormed(w) && i < MAX_PROCESSES
  {
    var p := w.procs[i];
    InWait(p) ==>
      && p.pc.target < MAX_PROCESSES && p.pc.target != i
      && (p.state == Sleeping ==> p.chan == ProcLock(p.pc.target))
      && (p.pc.pid != 0 ==>
            var t := w.procs[p.pc.target];
            && t.pid == p.pc.pid
            && (t.state == Exited <==> p.state != Sleeping)
            && (p.state == Runnable ==> Visits(NextSlot(w), i) < Visits(NextSlot(w), p.pc.target)))
  }

  ghost predicate WaitInv(w: World)
    requires WellFormed(w)
  {
    forall i :: 0 <= i < MAX_PROCESSES ==> WaiterOk(w, i)
  }

  ghost predicate ReaderOk(w: World, i: nat)
    requires WellFormed(w) && i < MAX_PROCESSES
  {
    w.procs[i].state == Sleeping && w.procs[i].pc.Reading? ==> w.procs[i].chan == SerialLock && w.ring == []
  }

  /** A lossless bounded queue, and no lost wakeup: nobody sleeps on the serial channel while there
      is input. */
  ghost predicate SerialInv(w: World)
    requires WellFormed(w)
  {
    && w.accepted == w.delivered + w.ring
    && |w.ring| < SERIAL_BUFFER_LENGTH
    && (forall i :: 0 <= i < MAX_PROCESSES ==> ReaderOk(w, i))
  }

  ghost predicate StatusOk(w: World, i: nat)
    requires WellFormed(w) && i < MAX_PROCESSES
  {
    var p := w.procs[i];
    && (p.state == Exited ==> p.pid in w.exitCodes && w.exitCodes[p.pid] == p.exitStatus)
    && (p.state != Exited && p.state != Unused ==> p.pid !in w.exitCodes)
  }

  /** Exit statuses in the table, and everything proc_wait has returned, are what proc_exit was given. */
  ghost predicate ExitInv(w: World)
    requires WellFormed(w)
  {
    && (forall p :: p in w.exitCodes ==> 0 < p < w.nextPid)
    && (forall i :: 0 <= i < MAX_PROCESSES ==> StatusOk(w, i))
    && (forall r :: r in w.log && r.pid != 0 ==> r.pid in w.exitCodes && r.status == w.exitCodes[r.pid])
  }

  /** A process that may run again. */
  predicate Live(p: Proc) {
    p.state == Sleeping || p.state == Runnable || p.state == Running
  }

  ghost predicate FpuOk(w: World, i: nat)
    requires WellFormed(w) && i < MAX_PROCESSES
  {
    && (Live(w.procs[i]) ==> w.fpuOf[i] == if w.last == Some(i) then w.regs else w.procs[i].fpu)
    && (w.last == Some(i) ==> w.procs[i].state != Unused)
    && (Live(w.procs[i]) && w.procs[i].pc.Fresh? ==> w.fpuOf[i] == ZERO_FPU)
  }

  /** Each live process finds its FPU contents: in the registers if it ran last, else in its save area. */
  ghost predicate FpuInv(w: World)
    requires WellFormed(w)
  {
    && (w.running.Some? ==> w.last == w.running)
    && (forall i :: 0 <= i < MAX_PROCESSES ==> FpuOk(w, i))
  }

  ghost predicate Inv(w: World) {
    && ModeInv(w)
    && PcInv(w) && PidInv(w) && WaitInv(w) && SerialInv(w) && ExitInv(w) && FpuInv(w)
  }

  // ----- one lemma per conjunct, slot by slot

  /** Steps of the scheduler and plain switches, as opposed to system calls and interrupts. */
  predicate Switching(a: Action) {
    a.Visit? || a.Wrap? || a.Leave? || a.Resume? || a.SleepMore? || a.Yield? || a.Compute?
  }

  /** System calls that may put the caller to sleep. */
  predicate Blocking(a: Action) {
    a.Wait? || a.Recheck? || a.Read? || a.ReadAsync?
  }

  /** What a blocking call may do: change where its caller stands, and put it to sleep. */
  ghost predicate OnlyMe(w: World, v: World) {
    && InProcess(w) && |v.procs| == |w.procs|
    && v == w.(procs := v.procs, mode := v.mode, ring := v.ring, delivered := v.delivered, log := v.log)
    && v.delivered + v.ring == w.delivered + w.ring && |v.ring| <= |w.ring|
    && (forall j :: 0 <= j < |w.procs| && Some(j) != w.running ==> v.procs[j] == w.procs[j])
    && var p, q := Me(w), v.procs[w.running.value];
    && q == p.(state := q.state, chan := q.chan, pc := q.pc)
    && if v.mode == Free then q.state == p.state && !Suspended(q.pc)
       else v.mode == Left && q.state == Sleeping && (q.pc.Waiting? || q.pc.Reading?)
  }

  lemma SleepOnOnlyMe(w: World, chan: Channel, pc: Pc)
    requires InProcess(w) && (pc.Waiting? || pc.Reading?)
    ensures OnlyMe(w, SleepOn(w, chan, pc))
  {
  }

  lemma WaitLoopOnlyMe(w: World, target: nat, pid: nat)
    requires InProcess(w)
    ensures OnlyMe(w, WaitLoop(w, target, pid))
  {
    hide SleepOn;
    SleepOnOnlyMe(w, ProcLock(target), Waiting(target, pid));
  }

  lemma DeliverOnlyMe(w: World, len: nat)
    requires InProcess(w)
    ensures OnlyMe(w, Deliver(w, len))
  {
    var n := Min(len, |w.ring|);
    assert w.ring == w.ring[..n] + w.ring[n..];
    assert w.delivered + (w.ring[..n] + w.ring[n..]) == (w.delivered + w.ring[..n]) + w.ring[n..];
  }

  lemma ReadLoopOnlyMe(w: World, len: nat)
    requires InProcess(w)
    ensures OnlyMe(w, ReadLoop(w, len))
  {
    hide SleepOn, Deliver, OnlyMe;
    SleepOnOnlyMe(w, SerialLock, Reading(len));
    DeliverOnlyMe(w, len);
  }

  lemma BlockingOnlyMe(w: World, a: Action)
    requires Enabled(w, a) && Blocking(a)
    ensures OnlyMe(w, Step(w, a))
  {
    hide VisitSlot, Dispatch, Reap, SwitchFpu, AfterSwitch, ResumeMe, YieldMe;
    hide ExitMe, ExecChild, Allocated, ReceiveChar, WakeAll, FindUnused, WaitLoop, ReadLoop, Deliver;
    match a
    case Wait(pid) =>
      WaitLoopOnlyMe(w, FindPid(w.procs, pid, 0), pid);
    case Recheck =>
      if Me(w).pc.Woken? {
        WaitLoopOnlyMe(w, Me(w).pc.target, Me(w).pc.pid);
      } else {
        ReadLoopOnlyMe(w, Me(w).pc.len);
      }
    case Read(len) =>
      ReadLoopOnlyMe(w, len);
    case ReadAsync(len) =>
      DeliverOnlyMe(w, len);
  }

  lemma WellFormedKept(w: World, a: Action)
    requires Inv(w) && Enabled(w, a)
    ensures WellFormed(Step(w, a))
  {
    hide PcInv, WaitInv, SerialInv, ExitInv, FpuInv, PidInv, RunningOk;
    hide WaitPid, WaitLoop, ReadLoop, Deliver, SleepOn, FindPid;
    if Blocking(a) {
      BlockingOnlyMe(w, a);
    }
  }

  lemma ModeKept(w: World, a: Action)
    requires Inv(w) && Enabled(w, a)
    ensures ModeInv(Step(w, a))
  {
    hide PcInv, WaitInv, SerialInv, ExitInv, FpuInv, PidInv;
    WellFormedKept(w, a);
    forall i | 0 <= i < MAX_PROCESSES ensures RunningOk(Step(w, a), i) {
      RunningKept(w, a, i);
    }
    assert w.running.Some? ==> RunningOk(w, w.running.value);
  }

  lemma RunningKeptSwitching(w: World, a: Action, i: nat)
    requires Inv(w) && Enabled(w, a) && WellFormed(Step(w, a)) && i < MAX_PROCESSES
    requires Switching(a)
    ensures RunningOk(Step(w, a), i)
  {
    hide WaitPid, WaitLoop, ReadLoop, Deliver, SleepOn, FindPid, ExitMe, ExecChild, Allocated, ReceiveChar, WakeAll;
    hide FindUnused;
    hide PcInv, WaitInv, SerialInv, ExitInv, FpuInv, PidInv;
    assert RunningOk(w, i);
  }

  lemma RunningKeptBlocking(w: World, a: Action, i: nat)
    requires Inv(w) && Enabled(w, a) && WellFormed(Step(w, a)) && i < MAX_PROCESSES
    requires Blocking(a)
    ensures RunningOk(Step(w, a), i)
  {
    hide Step, Enabled;
    BlockingOnlyMe(w, a);
    hide PcInv, WaitInv, SerialInv, ExitInv, FpuInv, PidInv;
    assert RunningOk(w, i) && RunningOk(w, w.running.value);
  }

  lemma RunningKeptActing(w: World, a: Action, i: nat)
    requires Inv(w) && Enabled(w, a) && WellFormed(Step(w, a)) && i < MAX_PROCESSES
    requires !Switching(a) && !Blocking(a)
    ensures RunningOk(Step(w, a), i)
  {
    hide VisitSlot, Dispatch, Reap, SwitchFpu, AfterSwitch, ResumeMe, YieldMe, WaitPid, WaitLoop, ReadLoop, Deliver;
    hide SleepOn, FindPid;
    hide PcInv, WaitInv, SerialInv, ExitInv, FpuInv, PidInv;
    assert RunningOk(w, i);
  }

  lemma RunningKept(w: World, a: Action, i: nat)
    requires Inv(w) && Enabled(w, a) && WellFormed(Step(w, a)) && i < MAX_PROCESSES
    ensures RunningOk(Step(w, a), i)
  {
    hide *;
    if Switching(a) {
      RunningKeptSwitching(w, a, i);
    } else if Blocking(a) {
      RunningKeptBlocking(w, a, i);
    } else {
      RunningKeptActing(w, a, i);
    }
  }

  lemma PcKeptSwitching(w: World, a: Action, i: nat)
    requires Inv(w) && Enabled(w, a) && WellFormed(Step(w, a)) && i < MAX_PROCESSES
    requires Switching(a)
    ensures PcOk(Step(w, a), i)
  {
    hide WaitPid, WaitLoop, ReadLoop, Deliver, SleepOn, FindPid, ExitMe, ExecChild, Allocated, ReceiveChar, WakeAll;
    hide FindUnused;
    hide WaitInv, SerialInv, ExitInv, FpuInv, PidInv;
    assert RunningOk(w, i) && PcOk(w, i);
  }

  lemma PcKeptBlocking(w: World, a: Action, i: nat)
    requires Inv(w) && Enabled(w, a) && WellFormed(Step(w, a)) && i < MAX_PROCESSES
    requires Blocking(a)
    ensures PcOk(Step(w, a), i)
  {
    hide Step, Enabled;
    BlockingOnlyMe(w, a);
    hide WaitInv, SerialInv, ExitInv, FpuInv, PidInv;
    assert RunningOk(w, i) && PcOk(w, i) && RunningOk(w, w.running.value);
  }

  lemma PcKeptActing(w: World, a: Action, i: nat)
    requires Inv(w) && Enabled(w, a) && WellFormed(Step(w, a)) && i < MAX_PROCESSES
    requires !Switching(a) && !Blocking(a)
    ensures PcOk(Step(w, a), i)
  {
    hide VisitSlot, Dispatch, Reap, SwitchFpu, AfterSwitch, ResumeMe, YieldMe, WaitPid, WaitLoop, ReadLoop, Deliver;
    hide SleepOn, FindPid;
    hide WaitInv, SerialInv, ExitInv, FpuInv, PidInv;
    assert RunningOk(w, i) && PcOk(w, i);
  }

  lemma PcKept(w: World, a: Action, i: nat)
    requires Inv(w) && Enabled(w, a) && WellFormed(Step(w, a)) && i < MAX_PROCESSES
    ensures PcOk(Step(w, a), i)
  {
    hide *;
    if Switching(a) {
      PcKeptSwitching(w, a, i);
    } else if Blocking(a) {
      PcKeptBlocking(w, a, i);
    } else {
      PcKeptActing(w, a, i);
    }
  }

  lemma PidOkKeptSwitching(w: World, a: Action, i: nat)
    requires Inv(w) && Enabled(w, a) && WellFormed(Step(w, a)) && i < MAX_PROCESSES
    requires Switching(a)
    ensures PidOk(Step(w, a), i)
  {
    hide WaitPid, WaitLoop, ReadLoop, Deliver, SleepOn, FindPid, ExitMe, ExecChild, Allocated, ReceiveChar, WakeAll;
    hide FindUnused;
    hide WaitInv, SerialInv, ExitInv, FpuInv, PcInv;
    assert RunningOk(w, i) && PidOk(w, i);
    assert w.running.Some? ==> RunningOk(w, w.running.value) && PidOk(w, w.running.value);
  }

  lemma PidOkKeptBlocking(w: World, a: Action, i: nat)
    requires Inv(w) && Enabled(w, a) && WellFormed(Step(w, a)) && i < MAX_PROCESSES
    requires Blocking(a)
    ensures PidOk(Step(w, a), i)
  {
    hide Step, Enabled;
    BlockingOnlyMe(w, a);
    hide WaitInv, SerialInv, ExitInv, FpuInv, PcInv;
    assert PidOk(w, i) && RunningOk(w, w.running.value);
  }

  lemma PidOkKeptActing(w: World, a: Action, i: nat)
    requires Inv(w) && Enabled(w, a) && WellFormed(Step(w, a)) && i < MAX_PROCESSES
    requires !Switching(a) && !Blocking(a)
    ensures PidOk(Step(w, a), i)
  {
    hide VisitSlot, Dispatch, Reap, SwitchFpu, AfterSwitch, ResumeMe, YieldMe, WaitPid, WaitLoop, ReadLoop, Deliver;
    hide SleepOn, FindPid;
    hide WaitInv, SerialInv, ExitInv, FpuInv, PcInv;
    assert RunningOk(w, i) && PidOk(w, i);
    assert w.running.Some? ==> RunningOk(w, w.running.value) && PidOk(w, w.running.value);
  }

  lemma PidOkKept(w: World, a: Action, i: nat)
    requires Inv(w) && Enabled(w, a) && WellFormed(Step(w, a)) && i < MAX_PROCESSES
    ensures PidOk(Step(w, a), i)
  {
    hide *;
    if Switching(a) {
      PidOkKeptSwitching(w, a, i);
    } else if Blocking(a) {
      PidOkKeptBlocking(w, a, i);
    } else {
      PidOkKeptActing(w, a, i);
    }
  }

  lemma PidsDifferKeptSwitching(w: World, a: Action, i: nat, j: nat)
    requires Inv(w) && Enabled(w, a) && WellFormed(Step(w, a)) && i < MAX_PROCESSES && j < MAX_PROCESSES
    requires Switching(a)
    ensures PidsDiffer(Step(w, a), i, j)
  {
    hide WaitPid, WaitLoop, ReadLoop, Deliver, SleepOn, FindPid, ExitMe, ExecChild, Allocated, ReceiveChar, WakeAll;
    hide FindUnused;
    hide WaitInv, SerialInv, ExitInv, FpuInv, PcInv;
    assert PidsDiffer(w, i, j) && PidOk(w, i) && PidOk(w, j);
  }

  lemma PidsDifferKeptBlocking(w: World, a: Action, i: nat, j: nat)
    requires Inv(w) && Enabled(w, a) && WellFormed(Step(w, a)) && i < MAX_PROCESSES && j < MAX_PROCESSES
    requires Blocking(a)
    ensures PidsDiffer(Step(w, a), i, j)
  {
    hide Step, Enabled;
    BlockingOnlyMe(w, a);
    hide WaitInv, SerialInv, ExitInv, FpuInv, PcInv;
    assert PidsDiffer(w, i, j);
  }

  lemma PidsDifferKeptActing(w: World, a: Action, i: nat, j: nat)
    requires Inv(w) && Enabled(w, a) && WellFormed(Step(w, a)) && i < MAX_PROCESSES && j < MAX_PROCESSES
    requires !Switching(a) && !Blocking(a)
    ensures PidsDiffer(Step(w, a), i, j)
  {
    hide VisitSlot, Dispatch, Reap, SwitchFpu, AfterSwitch, ResumeMe, YieldMe, WaitPid, WaitLoop, ReadLoop, Deliver;
    hide SleepOn, FindPid;
    hide WaitInv, SerialInv, ExitInv, FpuInv, PcInv;
    assert PidsDiffer(w, i, j) && PidOk(w, i) && PidOk(w, j);
  }

  lemma PidsDifferKept(w: World, a: Action, i: nat, j: nat)
    requires Inv(w) && Enabled(w, a) && WellFormed(Step(w, a)) && i < MAX_PROCESSES && j < MAX_PROCESSES
    ensures PidsDiffer(Step(w, a), i, j)
  {
    hide *;
    if Switching(a) {
      PidsDifferKeptSwitching(w, a, i, j);
    } else if Blocking(a) {
      PidsDifferKeptBlocking(w, a, i, j);
    } else {
      PidsDifferKeptActing(w, a, i, j);
    }
  }

  lemma ReaderKeptSwitching(w: World, a: Action, i: nat)
    requires Inv(w) && Enabled(w, a) && WellFormed(Step(w, a)) && i < MAX_PROCESSES
    requires Switching(a)
    ensures ReaderOk(Step(w, a), i)
  {
    hide WaitPid, WaitLoop, ReadLoop, Deliver, SleepOn, FindPid, ExitMe, ExecChild, Allocated, ReceiveChar, WakeAll;
    hide FindUnused;
    hide WaitInv, ExitInv, FpuInv, PidInv;
    assert RunningOk(w, i) && PcOk(w, i) && ReaderOk(w, i);
  }

  lemma ReaderKeptBlocking(w: World, a: Action, i: nat)
    requires Inv(w) && Enabled(w, a) && WellFormed(Step(w, a)) && i < MAX_PROCESSES
    requires Blocking(a)
    ensures ReaderOk(Step(w, a), i)
  {
    hide VisitSlot, Dispatch, Reap, SwitchFpu, AfterSwitch, ResumeMe, YieldMe, ExitMe, ExecChild, Allocated;
    hide ReceiveChar, WakeAll, FindUnused;
    hide WaitInv, ExitInv, FpuInv, PidInv;
    assert RunningOk(w, i) && PcOk(w, i) && ReaderOk(w, i);
  }

  lemma ReaderKeptActing(w: World, a: Action, i: nat)
    requires Inv(w) && Enabled(w, a) && WellFormed(Step(w, a)) && i < MAX_PROCESSES
    requires !Switching(a) && !Blocking(a)
    ensures ReaderOk(Step(w, a), i)
  {
    hide VisitSlot, Dispatch, Reap, SwitchFpu, AfterSwitch, ResumeMe, YieldMe, WaitPid, WaitLoop, ReadLoop, Deliver;
    hide SleepOn, FindPid;
    hide WaitInv, ExitInv, FpuInv, PidInv;
    assert RunningOk(w, i) && PcOk(w, i) && ReaderOk(w, i);
  }

  lemma ReaderKept(w: World, a: Action, i: nat)
    requires Inv(w) && Enabled(w, a) && WellFormed(Step(w, a)) && i < MAX_PROCESSES
    ensures ReaderOk(Step(w, a), i)
  {
    hide *;
    if Switching(a) {
      ReaderKeptSwitching(w, a, i);
    } else if Blocking(a) {
      ReaderKeptBlocking(w, a, i);
    } else {
      ReaderKeptActing(w, a, i);
    }
  }

  lemma QueueKeptSwitching(w: World, a: Action)
    requires Inv(w) && Enabled(w, a)
    requires Switching(a)
    ensures var v := Step(w, a);
            v.accepted == v.delivered + v.ring && |v.ring| < SERIAL_BUFFER_LENGTH
  {
    hide WaitPid, WaitLoop, ReadLoop, Deliver, SleepOn, FindPid, ExitMe, ExecChild, Allocated, ReceiveChar, WakeAll;
    hide FindUnused;
    hide WaitInv, ExitInv, FpuInv, PidInv, PcInv, ReaderOk;
  }

  lemma QueueKeptBlocking(w: World, a: Action)
    requires Inv(w) && Enabled(w, a)
    requires Blocking(a)
    ensures var v := Step(w, a);
            v.accepted == v.delivered + v.ring && |v.ring| < SERIAL_BUFFER_LENGTH
  {
    hide Step, Enabled;
    BlockingOnlyMe(w, a);
    hide WaitInv, ExitInv, FpuInv, PidInv, PcInv, ReaderOk;
  }

  lemma QueueKeptActing(w: World, a: Action)
    requires Inv(w) && Enabled(w, a)
    requires !Switching(a) && !Blocking(a)
    ensures var v := Step(w, a);
            v.accepted == v.delivered + v.ring && |v.ring| < SERIAL_BUFFER_LENGTH
  {
    hide VisitSlot, Dispatch, Reap, SwitchFpu, AfterSwitch, ResumeMe, YieldMe, WaitPid, WaitLoop, ReadLoop, Deliver;
    hide SleepOn, FindPid;
    hide WaitInv, ExitInv, FpuInv, PidInv, PcInv, ReaderOk;
  }

  lemma QueueKept(w: World, a: Action)
    requires Inv(w) && Enabled(w, a)
    ensures var v := Step(w, a);
            v.accepted == v.delivered + v.ring && |v.ring| < SERIAL_BUFFER_LENGTH
  {
    hide *;
    if Switching(a) {
      QueueKeptSwitching(w, a);
    } else if Blocking(a) {
      QueueKeptBlocking(w, a);
    } else {
      QueueKeptActing(w, a);
    }
  }

  lemma StatusKeptSwitching(w: World, a: Action, i: nat)
    requires Inv(w) && Enabled(w, a) && WellFormed(Step(w, a)) && i < MAX_PROCESSES
    requires Switching(a)
    ensures StatusOk(Step(w, a), i)
  {
    hide WaitPid, WaitLoop, ReadLoop, Deliver, SleepOn, FindPid, ExitMe, ExecChild, Allocated, ReceiveChar, WakeAll;
    hide FindUnused;
    hide WaitInv, SerialInv, FpuInv, PcInv;
    assert RunningOk(w, i) && StatusOk(w, i) && PidOk(w, i);
    if w.running.Some? {
      var me := w.running.value;
      assert RunningOk(w, me) && PidOk(w, me) && PidsDiffer(w, i, me) && PidsDiffer(w, me, i);
    }
  }

  lemma StatusKeptBlocking(w: World, a: Action, i: nat)
    requires Inv(w) && Enabled(w, a) && WellFormed(Step(w, a)) && i < MAX_PROCESSES
    requires Blocking(a)
    ensures StatusOk(Step(w, a), i)
  {
    hide Step, Enabled;
    BlockingOnlyMe(w, a);
    hide WaitInv, SerialInv, FpuInv, PcInv, PidInv;
    assert StatusOk(w, i) && RunningOk(w, w.running.value);
  }

  lemma StatusKeptActing(w: World, a: Action, i: nat)
    requires Inv(w) && Enabled(w, a) && WellFormed(Step(w, a)) && i < MAX_PROCESSES
    requires !Switching(a) && !Blocking(a)
    ensures StatusOk(Step(w, a), i)
  {
    hide VisitSlot, Dispatch, Reap, SwitchFpu, AfterSwitch, ResumeMe, YieldMe, WaitPid, WaitLoop, ReadLoop, Deliver;
    hide SleepOn, FindPid;
    hide WaitInv, SerialInv, FpuInv, PcInv;
    assert RunningOk(w, i) && StatusOk(w, i) && PidOk(w, i);
    if w.running.Some? {
      var me := w.running.value;
      assert RunningOk(w, me) && PidOk(w, me) && PidsDiffer(w, i, me) && PidsDiffer(w, me, i);
    }
  }

  lemma StatusKept(w: World, a: Action, i: nat)
    requires Inv(w) && Enabled(w, a) && WellFormed(Step(w, a)) && i < MAX_PROCESSES
    ensures StatusOk(Step(w, a), i)
  {
    hide *;
    if Switching(a) {
      StatusKeptSwitching(w, a, i);
    } else if Blocking(a) {
      StatusKeptBlocking(w, a, i);
    } else {
      StatusKeptActing(w, a, i);
    }
  }

  lemma FpuKeptSwitching(w: World, a: Action, i: nat)
    requires Inv(w) && Enabled(w, a) && WellFormed(Step(w, a)) && i < MAX_PROCESSES
    requires Switching(a)
    ensures FpuOk(Step(w, a), i)
  {
    hide WaitPid, WaitLoop, ReadLoop, Deliver, SleepOn, FindPid, ExitMe, ExecChild, Allocated, ReceiveChar, WakeAll;
    hide FindUnused;
    hide WaitInv, SerialInv, ExitInv, PcInv, PidInv;
    assert RunningOk(w, i) && FpuOk(w, i);
  }

  lemma FpuKeptBlocking(w: World, a: Action, i: nat)
    requires Inv(w) && Enabled(w, a) && WellFormed(Step(w, a)) && i < MAX_PROCESSES
    requires Blocking(a)
    ensures FpuOk(Step(w, a), i)
  {
    hide Step, Enabled;
    BlockingOnlyMe(w, a);
    hide WaitInv, SerialInv, ExitInv, PidInv;
    assert RunningOk(w, w.running.value) && FpuOk(w, i) && PcOk(w, w.running.value);
  }

  lemma FpuKeptActing(w: World, a: Action, i: nat)
    requires Inv(w) && Enabled(w, a) && WellFormed(Step(w, a)) && i < MAX_PROCESSES
    requires !Switching(a) && !Blocking(a)
    ensures FpuOk(Step(w, a), i)
  {
    hide VisitSlot, Dispatch, Reap, SwitchFpu, AfterSwitch, ResumeMe, YieldMe, WaitPid, WaitLoop, ReadLoop, Deliver;
    hide SleepOn, FindPid;
    hide WaitInv, SerialInv, ExitInv, PcInv, PidInv;
    assert RunningOk(w, i) && FpuOk(w, i);
  }

  lemma FpuKept(w: World, a: Action, i: nat)
    requires Inv(w) && Enabled(w, a) && WellFormed(Step(w, a)) && i < MAX_PROCESSES
    ensures FpuOk(Step(w, a), i)
  {
    hide *;
    if Switching(a) {
      FpuKeptSwitching(w, a, i);
    } else if Blocking(a) {
      FpuKeptBlocking(w, a, i);
    } else {
      FpuKeptActing(w, a, i);
    }
  }

  lemma WaiterVisit(w: World, i: nat)
    requires Inv(w) && Enabled(w, Visit) && WellFormed(Step(w, Visit)) && i < MAX_PROCESSES
    ensures WaiterOk(Step(w, Visit), i)
  {
    hide WaitPid, WaitLoop, ReadLoop, Deliver, SleepOn, FindPid, ExitMe, ExecChild, Allocated, ReceiveChar, WakeAll;
    hide AfterSwitch, ResumeMe, YieldMe, FindUnused;
    hide SerialInv, ExitInv, FpuInv, PidInv, PcInv;
    assert RunningOk(w, i) && WaiterOk(w, i);
    assert InWait(w.procs[i]) ==> RunningOk(w, w.procs[i].pc.target);
  }

  lemma WaiterExit(w: World, code: int, i: nat)
    requires Inv(w) && Enabled(w, Exit(code)) && WellFormed(Step(w, Exit(code))) && i < MAX_PROCESSES
    ensures WaiterOk(Step(w, Exit(code)), i)
  {
    hide SerialInv, ExitInv, FpuInv, PidInv;
    assert RunningOk(w, i) && WaiterOk(w, i) && PcOk(w, i) && RunningOk(w, w.cursor);
  }

  lemma WaiterInLoop(w: World, t: nat, pid: nat, i: nat)
    requires Inv(w) && InProcess(w) && i < MAX_PROCESSES && t < MAX_PROCESSES && t != w.running.value
    requires pid != 0 ==> w.procs[t].pid == pid
    requires WellFormed(WaitLoop(w, t, pid))
    ensures WaiterOk(WaitLoop(w, t, pid), i)
  {
    hide SerialInv, ExitInv, FpuInv, PidInv, PcInv;
    assert RunningOk(w, i) && WaiterOk(w, i) && RunningOk(w, w.cursor);
  }

  lemma WaiterSleeps(w: World, a: Action, i: nat)
    requires Inv(w) && Enabled(w, a) && WellFormed(Step(w, a)) && i < MAX_PROCESSES
    requires a.Wait? || a.Recheck?
    ensures WaiterOk(Step(w, a), i)
  {
    hide SerialInv, ExitInv, FpuInv, PcInv, PidInv;
    var me := w.running.value;
    assert WaiterOk(w, i) && RunningOk(w, i) && WaiterOk(w, me) && RunningOk(w, me);
    if a.Wait? {
      var t := FindPid(w.procs, a.pid, 0);
      if t < MAX_PROCESSES {
        WaiterInLoop(w, t, a.pid, i);
      }
    } else if Me(w).pc.Woken? {
      WaiterInLoop(w, Me(w).pc.target, Me(w).pc.pid, i);
    } else {
      WaiterAndReader(w, Me(w).pc.len, i);
    }
  }

  lemma WaiterAndReader(w: World, len: nat, i: nat)
    requires Inv(w) && InProcess(w) && i < MAX_PROCESSES && !InWait(Me(w))
    requires WellFormed(ReadLoop(w, len))
    ensures WaiterOk(ReadLoop(w, len), i)
  {
    hide SerialInv, ExitInv, FpuInv, PcInv, PidInv;
    assert WaiterOk(w, i) && RunningOk(w, i) && RunningOk(w, w.running.value);
    assert InWait(w.procs[i]) ==> RunningOk(w, w.procs[i].pc.target);
  }

  lemma WaiterSwitches(w: World, a: Action, i: nat)
    requires Inv(w) && Enabled(w, a) && WellFormed(Step(w, a)) && i < MAX_PROCESSES
    requires Switching(a) && !a.Visit?
    ensures WaiterOk(Step(w, a), i)
  {
    hide VisitSlot, Dispatch, Reap, SwitchFpu, WaitPid, WaitLoop, ReadLoop, Deliver, SleepOn, FindPid;
    hide ExitMe, ExecChild, Allocated, ReceiveChar, WakeAll, FindUnused;
    hide SerialInv, ExitInv, FpuInv;
    assert RunningOk(w, i) && WaiterOk(w, i) && PcOk(w, i) && PidOk(w, i);
    if InWait(w.procs[i]) {
      var t := w.procs[i].pc.target;
      assert RunningOk(w, t) && PidOk(w, t) && PcOk(w, t);
    }
  }

  lemma WaiterReads(w: World, a: Action, i: nat)
    requires Inv(w) && Enabled(w, a) && WellFormed(Step(w, a)) && i < MAX_PROCESSES
    requires a.Read? || a.ReadAsync?
    ensures WaiterOk(Step(w, a), i)
  {
    hide VisitSlot, Dispatch, Reap, SwitchFpu, AfterSwitch, ResumeMe, YieldMe, WaitPid, WaitLoop, FindPid;
    hide ExitMe, ExecChild, Allocated, ReceiveChar, WakeAll, FindUnused, Deliver, SleepOn;
    hide SerialInv, ExitInv, FpuInv, PcInv, PidInv;
    assert WaiterOk(w, i);
    if Step(w, a) != w {
      WaiterAndReader(w, a.len, i);
    }
  }

  lemma WaiterExec(w: World, a: Action, i: nat)
    requires Inv(w) && Enabled(w, a) && WellFormed(Step(w, a)) && i < MAX_PROCESSES
    requires a.Exec?
    ensures WaiterOk(Step(w, a), i)
  {
    hide VisitSlot, Dispatch, Reap, SwitchFpu, AfterSwitch, ResumeMe, YieldMe;
    hide WaitPid, WaitLoop, ReadLoop, Deliver, SleepOn, FindPid, ExitMe, ReceiveChar, WakeAll;
    hide SerialInv, ExitInv, FpuInv;
    assert RunningOk(w, i) && WaiterOk(w, i) && PcOk(w, i) && PidOk(w, i);
    if InWait(w.procs[i]) {
      var t := w.procs[i].pc.target;
      assert RunningOk(w, t) && PidOk(w, t) && PcOk(w, t);
    }
  }

  lemma WaiterReceive(w: World, a: Action, i: nat)
    requires Inv(w) && Enabled(w, a) && WellFormed(Step(w, a)) && i < MAX_PROCESSES
    requires a.Receive?
    ensures WaiterOk(Step(w, a), i)
  {
    hide VisitSlot, Dispatch, Reap, SwitchFpu, AfterSwitch, ResumeMe, YieldMe;
    hide WaitPid, WaitLoop, ReadLoop, Deliver, SleepOn, FindPid, ExitMe, ExecChild, Allocated, FindUnused;
    hide SerialInv, ExitInv, FpuInv;
    assert RunningOk(w, i) && WaiterOk(w, i) && PcOk(w, i) && PidOk(w, i);
    if InWait(w.procs[i]) {
      var t := w.procs[i].pc.target;
      assert RunningOk(w, t) && PidOk(w, t) && PcOk(w, t);
    }
  }

  /** Every step keeps the invariant. */
  lemma InvKept(w: World, a: Action)
    requires Inv(w) && Enabled(w, a)
    ensures Inv(Step(w, a))
  {
    hide Step, Enabled, RunningOk, PcOk, PidOk, PidsDiffer, WaiterOk, ReaderOk, StatusOk, FpuOk;
    var v := Step(w, a);
    ModeKept(w, a);
    forall i | 0 <= i < MAX_PROCESSES
      ensures PcOk(v, i) && PidOk(v, i) && WaiterOk(v, i) && ReaderOk(v, i) && StatusOk(v, i) && FpuOk(v, i)
    {
      PcKept(w, a, i);
      PidOkKept(w, a, i);
      ReaderKept(w, a, i);
      StatusKept(w, a, i);
      FpuKept(w, a, i);
      if a.Visit? {
        WaiterVisit(w, i);
      } else if a.Exit? {
        WaiterExit(w, a.code, i);
      } else if a.Wait? || a.Recheck? {
        WaiterSleeps(w, a, i);
      } else if Switching(a) {
        WaiterSwitches(w, a, i);
      } else if a.Read? || a.ReadAsync? {
        WaiterReads(w, a, i);
      } else if a.Exec? {
        WaiterExec(w, a, i);
      } else {
        WaiterReceive(w, a, i);
      }
    }
    forall i, j | 0 <= i < MAX_PROCESSES && 0 <= j < MAX_PROCESSES ensures PidsDiffer(v, i, j) {
      PidsDifferKept(w, a, i, j);
    }
    QueueKept(w, a);
    HistoryKept(w, a);
  }

  lemma HistoryKept(w: World, a: Action)
    requires Inv(w) && Enabled(w, a)
    ensures var v := Step(w, a);
            && v.nextPid >= 1
            && (v.running.Some? ==> v.last == v.running)
            && (forall p :: p in v.exitCodes ==> 0 < p < v.nextPid)
            && (forall r :: r in v.log && r.pid != 0 ==> r.pid in v.exitCodes && r.status == v.exitCodes[r.pid])
  {
    hide SerialInv, PcInv, WaitInv, WakeAll, FindPid, FindUnused, WaitLoop, Deliver, ReadLoop, SleepOn;
    if w.running.Some? {
      var me := w.running.value;
      assert RunningOk(w, me) && PidOk(w, me) && StatusOk(w, me);
    }
    if Blocking(a) {
      hide Step, Enabled;
      BlockingOnlyMe(w, a);
      LogKept(w, a);
    }
  }

  lemma LogKept(w: World, a: Action)
    requires Inv(w) && Enabled(w, a) && Blocking(a)
    ensures forall r :: r in Step(w, a).log && r.pid != 0 ==> r.pid in w.exitCodes && r.status == w.exitCodes[r.pid]
  {
    hide VisitSlot, Dispatch, Reap, SwitchFpu, AfterSwitch, ResumeMe, YieldMe;
    hide ExitMe, ExecChild, Allocated, ReceiveChar, WakeAll, FindUnused;
    hide SerialInv, PcInv, FpuInv;
    var me := w.running.value;
    assert RunningOk(w, me) && WaiterOk(w, me);
    if a.Wait? {
      var t := FindPid(w.procs, a.pid, 0);
      assert t < MAX_PROCESSES ==> StatusOk(w, t);
    } else if Me(w).pc.Woken? {
      assert Me(w).pc.target < MAX_PROCESSES ==> StatusOk(w, Me(w).pc.target);
    }
  }

  // ----- runs

  /** The machine when the scheduler starts: /init is ready in slot 0. */
  function Boot(): World {
    var empty := Proc(0, Unused, Nowhere, 0, Fresh, ZERO_FPU);
    var first := Proc(1, Runnable, Nowhere, -1, Fresh, ZERO_FPU);
    World(seq(MAX_PROCESSES, i => if i == 0 then first else empty), None, None, 0, Sched, 2, [], 0,
          [], [], seq(MAX_PROCESSES, i => ZERO_FPU), map[], [])
  }

  ghost predicate IsRun(w: World, actions: seq<Action>)
    decreases |actions|
  {
    actions != [] ==> Enabled(w, actions[0]) && IsRun(Step(w, actions[0]), actions[1..])
  }

  ghost function After(w: World, actions: seq<Action>): World
    requires IsRun(w, actions)
    decreases |actions|
  {
    if actions == [] then w else After(Step(w, actions[0]), actions[1..])
  }

  lemma BootInv()
    ensures Inv(Boot())
  {
  }

  lemma {:induction false} RunInv(w: World, actions: seq<Action>)
    requires Inv(w) && IsRun(w, actions)
    ensures Inv(After(w, actions))
    decreases |actions|
  {
    hide Inv, Step, Enabled;
    if actions != [] {
      InvKept(w, actions[0]);
      RunInv(Step(w, actions[0]), actions[1..]);
    }
  }

  /** The invariant holds in every state of every run from boot. */
  lemma AlwaysInv(actions: seq<Action>)
    requires IsRun(Boot(), actions)
    ensures Inv(After(Boot(), actions))
  {
    hide Inv;
    BootInv();
    RunInv(Boot(), actions);
  }

  // ----- proc_wait returns what proc_exit was given

  /** Process `wpid` in slot `i` is in proc_wait for `pid`, which has exited with `code` in slot `t`. */
  predicate Pending(w: World, i: nat, wpid: nat, t: nat, pid: nat, code: int)
  {
    && WellFormed(w) && i < MAX_PROCESSES && t < MAX_PROCESSES
    && w.procs[i].pid == wpid && InWait(w.procs[i])
    && w.procs[i].pc.target == t && w.procs[i].pc.pid == pid
    && w.procs[t].state == Exited && w.procs[t].pid == pid && w.procs[t].exitStatus == code
  }

  /** Exiting makes every waiter pending. */
  lemma ExitWakesWaiters(w: World, code: int, i: nat)
    requires Inv(w) && Enabled(w, Exit(code)) && i < MAX_PROCESSES
    requires InWait(w.procs[i]) && w.procs[i].pc.pid == Me(w).pid
    ensures Pending(Step(w, Exit(code)), i, w.procs[i].pid, w.running.value, Me(w).pid, code)
    ensures Step(w, Exit(code)).procs[i].state == Runnable
  {
    hide SerialInv, ExitInv, FpuInv;
    var me := w.running.value;
    assert RunningOk(w, i) && RunningOk(w, me) && PidOk(w, me) && WaiterOk(w, i);
    assert PidsDiffer(w, me, w.procs[i].pc.target) && PcOk(w, i);
  }

  /** A reaped slot has no waiter left. */
  lemma ReapStrandsNobody(w: World, i: nat)
    requires Inv(w) && Enabled(w, Visit) && w.procs[w.cursor].state == Exited && i < MAX_PROCESSES
    ensures !(InWait(w.procs[i]) && w.procs[i].pc.target == w.cursor && w.procs[i].pc.pid != 0)
  {
    hide SerialInv, ExitInv, FpuInv, PidInv, PcInv;
    assert WaiterOk(w, i) && RunningOk(w, i);
  }

  lemma PendingStepSwitching(w: World, a: Action, i: nat, wpid: nat, t: nat, pid: nat, code: int)
    requires Inv(w) && Enabled(w, a) && Pending(w, i, wpid, t, pid, code) && pid != 0
    requires Switching(a)
    ensures Pending(Step(w, a), i, wpid, t, pid, code) || Returned(wpid, pid, code) in Step(w, a).log
  {
    hide WaitPid, WaitLoop, ReadLoop, Deliver, SleepOn, FindPid, ExitMe, ExecChild, Allocated, ReceiveChar, WakeAll;
    hide FindUnused;
    hide SerialInv, ExitInv, FpuInv;
    assert WaiterOk(w, i) && RunningOk(w, i) && RunningOk(w, t) && PcOk(w, i) && PidOk(w, i) && PidOk(w, t);
    if a.Visit? && w.procs[w.cursor].state == Exited {
      ReapStrandsNobody(w, i);
    }
  }

  lemma PendingRechecks(w: World, a: Action, i: nat, wpid: nat, t: nat, pid: nat, code: int)
    requires Enabled(w, a) && Blocking(a) && Pending(w, i, wpid, t, pid, code) && w.running == Some(i)
    ensures Returned(wpid, pid, code) in Step(w, a).log
  {
    hide VisitSlot, Dispatch, Reap, SwitchFpu, AfterSwitch, ResumeMe, YieldMe;
    hide ExitMe, ExecChild, Allocated, ReceiveChar, WakeAll, FindUnused, ReadLoop, Deliver, FindPid;
  }

  lemma PendingStepBlocking(w: World, a: Action, i: nat, wpid: nat, t: nat, pid: nat, code: int)
    requires Inv(w) && Enabled(w, a) && Pending(w, i, wpid, t, pid, code) && pid != 0
    requires Blocking(a)
    ensures Pending(Step(w, a), i, wpid, t, pid, code) || Returned(wpid, pid, code) in Step(w, a).log
  {
    hide Step, Enabled;
    BlockingOnlyMe(w, a);
    hide SerialInv, ExitInv, FpuInv, PidInv;
    assert RunningOk(w, i) && RunningOk(w, t) && RunningOk(w, w.running.value) && PcOk(w, i) && WaiterOk(w, i);
    if w.running == Some(i) {
      PendingRechecks(w, a, i, wpid, t, pid, code);
    }
  }

  lemma PendingStepActing(w: World, a: Action, i: nat, wpid: nat, t: nat, pid: nat, code: int)
    requires Inv(w) && Enabled(w, a) && Pending(w, i, wpid, t, pid, code) && pid != 0
    requires !Switching(a) && !Blocking(a)
    ensures Pending(Step(w, a), i, wpid, t, pid, code) || Returned(wpid, pid, code) in Step(w, a).log
  {
    hide VisitSlot, Dispatch, Reap, SwitchFpu, AfterSwitch, ResumeMe, YieldMe, WaitPid, WaitLoop, ReadLoop, Deliver;
    hide SleepOn, FindPid;
    hide SerialInv, ExitInv, FpuInv;
    assert WaiterOk(w, i) && RunningOk(w, i) && RunningOk(w, t) && PcOk(w, i) && PidOk(w, i) && PidOk(w, t);
  }

  lemma PendingStep(w: World, a: Action, i: nat, wpid: nat, t: nat, pid: nat, code: int)
    requires Inv(w) && Enabled(w, a) && Pending(w, i, wpid, t, pid, code) && pid != 0
    ensures Pending(Step(w, a), i, wpid, t, pid, code) || Returned(wpid, pid, code) in Step(w, a).log
  {
    hide *;
    if Switching(a) {
      PendingStepSwitching(w, a, i, wpid, t, pid, code);
    } else if Blocking(a) {
      PendingStepBlocking(w, a, i, wpid, t, pid, code);
    } else {
      PendingStepActing(w, a, i, wpid, t, pid, code);
    }
  }

  lemma LogGrows(w: World, a: Action, r: Returned)
    requires Enabled(w, a) && r in w.log
    ensures r in Step(w, a).log
  {
  }

  lemma {:induction false} LogGrowsOverRun(w: World, actions: seq<Action>, r: Returned)
    requires IsRun(w, actions) && r in w.log
    ensures r in After(w, actions).log
    decreases |actions|
  {
    hide Step, Enabled;
    if actions != [] {
      LogGrows(w, actions[0], r);
      LogGrowsOverRun(Step(w, actions[0]), actions[1..], r);
    }
  }

  lemma {:induction false} PendingOverRun(w: World, actions: seq<Action>, i: nat, wpid: nat, t: nat, pid: nat,
      code: int)
    requires Inv(w) && IsRun(w, actions) && Pending(w, i, wpid, t, pid, code) && pid != 0
    ensures Pending(After(w, actions), i, wpid, t, pid, code) || Returned(wpid, pid, code) in After(w, actions).log
    decreases |actions|
  {
    hide Inv, Step, Enabled, Pending;
    if actions != [] {
      var v := Step(w, actions[0]);
      InvKept(w, actions[0]);
      PendingStep(w, actions[0], i, wpid, t, pid, code);
      if Pending(v, i, wpid, t, pid, code) {
        PendingOverRun(v, actions[1..], i, wpid, t, pid, code);
      } else {
        LogGrowsOverRun(v, actions[1..], Returned(wpid, pid, code));
      }
    }
  }

  /** A process in proc_wait for the process that exits with `code`: however the run goes on, either
      its proc_wait has returned exactly `code`, or the exited slot still holds that status and the
      waiter is still on its way.  In particular the slot is not reaped or reused first. */
  lemma WaiterGetsExitStatus(w: World, code: int, i: nat, actions: seq<Action>)
    requires Inv(w) && Enabled(w, Exit(code)) && i < MAX_PROCESSES
    requires InWait(w.procs[i]) && w.procs[i].pc.pid == Me(w).pid
    requires IsRun(Step(w, Exit(code)), actions)
    ensures var v := After(Step(w, Exit(code)), actions);
            || Returned(w.procs[i].pid, Me(w).pid, code) in v.log
            || Pending(v, i, w.procs[i].pid, w.running.value, Me(w).pid, code)
  {
    hide Step, Pending, IsRun;
    ExitWakesWaiters(w, code, i);
    InvKept(w, Exit(code));
    assert PidOk(w, w.running.value) && RunningOk(w, w.running.value);
    PendingOverRun(Step(w, Exit(code)), actions, i, w.procs[i].pid, w.running.value, Me(w).pid, code);
  }

  // ----- the round robin dispatches before it reaps

  /** Slot `i` is ready and the scheduler comes to it before it comes to the exited slot `t`. */
  predicate Ahead(w: World, i: nat, t: nat) {
    && WellFormed(w) && i < MAX_PROCESSES && t < MAX_PROCESSES
    && w.procs[i].state == Runnable && w.procs[t].state == Exited
    && Visits(NextSlot(w), i) < Visits(NextSlot(w), t)
  }

  /** The step dispatches slot `i`. */
  predicate Dispatches(w: World, a: Action, i: nat) {
    Enabled(w, a) && a.Visit? && w.cursor == i && w.procs[i].state == Runnable
  }

  lemma AheadAfterExit(w: World, code: int, i: nat)
    requires Inv(w) && Enabled(w, Exit(code)) && i < MAX_PROCESSES && w.procs[i].state == Runnable
    ensures Ahead(Step(w, Exit(code)), i, w.running.value)
  {
    hide SerialInv, ExitInv, FpuInv, PidInv, WaitInv;
    assert RunningOk(w, i);
  }

  lemma AheadStepSwitching(w: World, a: Action, i: nat, t: nat)
    requires Inv(w) && Enabled(w, a) && Ahead(w, i, t)
    requires Switching(a)
    ensures Ahead(Step(w, a), i, t) || Dispatches(w, a, i)
  {
    hide WaitPid, WaitLoop, ReadLoop, Deliver, SleepOn, FindPid, ExitMe, ExecChild, Allocated, ReceiveChar, WakeAll;
    hide FindUnused;
    hide SerialInv, ExitInv, FpuInv, PidInv, WaitInv;
    assert RunningOk(w, i) && RunningOk(w, t);
  }

  lemma AheadStepBlocking(w: World, a: Action, i: nat, t: nat)
    requires Inv(w) && Enabled(w, a) && Ahead(w, i, t)
    requires Blocking(a)
    ensures Ahead(Step(w, a), i, t) || Dispatches(w, a, i)
  {
    hide Step, Enabled;
    BlockingOnlyMe(w, a);
    hide SerialInv, ExitInv, FpuInv, PidInv, WaitInv, PcInv;
    assert RunningOk(w, i) && RunningOk(w, t);
  }

  lemma AheadStepActing(w: World, a: Action, i: nat, t: nat)
    requires Inv(w) && Enabled(w, a) && Ahead(w, i, t)
    requires !Switching(a) && !Blocking(a)
    ensures Ahead(Step(w, a), i, t) || Dispatches(w, a, i)
  {
    hide VisitSlot, Dispatch, Reap, SwitchFpu, AfterSwitch, ResumeMe, YieldMe, WaitPid, WaitLoop, ReadLoop, Deliver;
    hide SleepOn, FindPid;
    hide SerialInv, ExitInv, FpuInv, PidInv, WaitInv;
    assert RunningOk(w, i) && RunningOk(w, t);
  }

  lemma AheadStep(w: World, a: Action, i: nat, t: nat)
    requires Inv(w) && Enabled(w, a) && Ahead(w, i, t)
    ensures Ahead(Step(w, a), i, t) || Dispatches(w, a, i)
  {
    hide *;
    if Switching(a) {
      AheadStepSwitching(w, a, i, t);
    } else if Blocking(a) {
      AheadStepBlocking(w, a, i, t);
    } else {
      AheadStepActing(w, a, i, t);
    }
  }

  /** Along any run, as long as slot `i` has not been dispatched, the exited slot is not reaped. */
  lemma {:induction false} DispatchedBeforeReaped(w: World, actions: seq<Action>, i: nat, t: nat)
    requires Inv(w) && IsRun(w, actions) && Ahead(w, i, t)
    ensures || Ahead(After(w, actions), i, t)
            || exists k :: 0 <= k < |actions| && IsRun(w, actions[..k]) && Ahead(After(w, actions[..k]), i, t) &&
                Dispatches(After(w, actions[..k]), actions[k], i)
    decreases |actions|
  {
    hide Inv, Step, Enabled, Ahead, Dispatches;
    if actions != [] {
      var v := Step(w, actions[0]);
      InvKept(w, actions[0]);
      AheadStep(w, actions[0], i, t);
      if Ahead(v, i, t) {
        var rest := actions[1..];
        DispatchedBeforeReaped(v, rest, i, t);
        if !Ahead(After(v, rest), i, t) {
          var k :| 0 <= k < |rest| && IsRun(v, rest[..k]) && Ahead(After(v, rest[..k]), i, t) &&
              Dispatches(After(v, rest[..k]), rest[k], i);
          assert actions[..k + 1][0] == actions[0] && actions[..k + 1][1..] == rest[..k];
          assert actions[k + 1] == rest[k];
        }
      } else {
        assert actions[..0] == [];
        assert IsRun(w, actions[..0]) && After(w, actions[..0]) == w;
      }
    }
  }

  // ----- a dispatched waiter returns

  /** The waiter of Pending is on the CPU. */
  predicate OnCpu(w: World, i: nat, wpid: nat, t: nat, pid: nat, code: int) {
    Pending(w, i, wpid, t, pid, code) && w.running == Some(i) && (w.mode == Entered || w.mode == Free)
  }

  lemma DispatchedOnCpu(w: World, i: nat, wpid: nat, t: nat, pid: nat, code: int)
    requires Inv(w) && Pending(w, i, wpid, t, pid, code) && Dispatches(w, Visit, i)
    ensures OnCpu(Step(w, Visit), i, wpid, t, pid, code)
  {
    hide SerialInv, ExitInv, FpuInv, PidInv, WaitInv, PcInv;
  }

  /** On the CPU it can only continue, be interrupted by a character, or look again; and when it
      looks, its proc_wait returns the code. */
  lemma OnCpuStep(w: World, a: Action, i: nat, wpid: nat, t: nat, pid: nat, code: int)
    requires Inv(w) && Enabled(w, a) && OnCpu(w, i, wpid, t, pid, code)
    ensures a.Resume? || a.Receive? || a.Recheck?
    ensures !a.Recheck? ==> OnCpu(Step(w, a), i, wpid, t, pid, code)
    ensures a.Recheck? ==> Returned(wpid, pid, code) in Step(w, a).log
  {
    hide SerialInv, ExitInv, FpuInv, PidInv, WaitInv;
    assert RunningOk(w, i) && PcOk(w, i);
  }

  /** Apart from being interrupted by characters, a dispatched waiter needs two steps. */
  lemma {:induction false} ReturnsOnceDispatched(w: World, actions: seq<Action>, i: nat, wpid: nat, t: nat, pid: nat,
      code: int)
    requires Inv(w) && IsRun(w, actions) && OnCpu(w, i, wpid, t, pid, code)
    requires exists k :: 0 <= k < |actions| && !actions[k].Resume? && !actions[k].Receive?
    ensures Returned(wpid, pid, code) in After(w, actions).log
    decreases |actions|
  {
    hide Inv, Step, Enabled, OnCpu;
    var a, v, rest := actions[0], Step(w, actions[0]), actions[1..];
    InvKept(w, a);
    OnCpuStep(w, a, i, wpid, t, pid, code);
    if a.Recheck? {
      LogGrowsOverRun(v, rest, Returned(wpid, pid, code));
    } else {
      var k :| 0 <= k < |actions| && !actions[k].Resume? && !actions[k].Receive?;
      assert rest[k - 1] == actions[k];
      ReturnsOnceDispatched(v, rest, i, wpid, t, pid, code);
    }
  }

  lemma ReturnsFromDispatch(v: World, rest: seq<Action>, i: nat, wpid: nat, t: nat, pid: nat, code: int)
    requires Inv(v) && Dispatches(v, Visit, i) && IsRun(Step(v, Visit), rest)
    requires Pending(v, i, wpid, t, pid, code) || Returned(wpid, pid, code) in v.log
    requires exists k :: 0 <= k < |rest| && !rest[k].Resume? && !rest[k].Receive?
    ensures Returned(wpid, pid, code) in After(Step(v, Visit), rest).log
  {
    hide Inv, Step, Enabled, Pending, OnCpu, IsRun, After;
    InvKept(v, Visit);
    if Pending(v, i, wpid, t, pid, code) {
      DispatchedOnCpu(v, i, wpid, t, pid, code);
      ReturnsOnceDispatched(Step(v, Visit), rest, i, wpid, t, pid, code);
    } else {
      LogGrows(v, Visit, Returned(wpid, pid, code));
      LogGrowsOverRun(Step(v, Visit), rest, Returned(wpid, pid, code));
    }
  }

  /** A process in proc_wait for the process that exits with `code`.  Let the run go on in any way
      until the waiter's slot is dispatched (which DispatchedBeforeReaped puts before the reaping).
      After that, as soon as the CPU has done anything but continue and take characters, its
      proc_wait has returned exactly `code`. */
  lemma WaiterReturnsCode(w: World, code: int, i: nat, before: seq<Action>, rest: seq<Action>)
    requires Inv(w) && Enabled(w, Exit(code)) && i < MAX_PROCESSES
    requires InWait(w.procs[i]) && w.procs[i].pc.pid == Me(w).pid
    requires IsRun(Step(w, Exit(code)), before)
    requires Dispatches(After(Step(w, Exit(code)), before), Visit, i)
    requires IsRun(Step(After(Step(w, Exit(code)), before), Visit), rest)
    requires exists k :: 0 <= k < |rest| && !rest[k].Resume? && !rest[k].Receive?
    ensures Returned(w.procs[i].pid, Me(w).pid, code) in After(Step(After(Step(w, Exit(code)), before), Visit),
        rest).log
  {
    hide Inv, Step, Pending, Dispatches, IsRun, After;
    WaiterGetsExitStatus(w, code, i, before);
    InvKept(w, Exit(code));
    RunInv(Step(w, Exit(code)), before);
    ReturnsFromDispatch(After(Step(w, Exit(code)), before), rest, i, w.procs[i].pid, w.running.value, Me(w).pid, code);
  }

  // ----- a new process

  /** What proc_exec's result says about the table: `pid` is the one new process, in a slot that was
      unused, and waiting for `pid` finds it; or no slot has changed hands. */
  ghost predicate Born(w: World, v: World, pid: int) {
    && WellFormed(w) && WellFormed(v)
    && if pid == -1 then
         forall j :: 0 <= j < MAX_PROCESSES ==>
           v.procs[j].pid == w.procs[j].pid && v.procs[j].state == w.procs[j].state
       else
         && pid > 0
         && var i := FindPid(v.procs, pid, 0);
         && i < MAX_PROCESSES && w.procs[i].state == Unused
         && v.procs[i].state == Runnable && v.procs[i].pc == Fresh && v.procs[i].pid == pid
         && (forall j :: 0 <= j < MAX_PROCESSES && j != i ==> v.procs[j] == w.procs[j] && v.procs[j].pid != pid)
  }

  lemma FindPidIs(procs: seq<Proc>, pid: nat, i: nat)
    requires i < |procs| && procs[i].pid == pid && forall j :: 0 <= j < |procs| && j != i ==> procs[j].pid != pid
    ensures FindPid(procs, pid, 0) == i
  {
  }

  /** The pid handed out is the child's, and nobody else's. */
  lemma ExecBears(w: World, ok: bool)
    requires Inv(w) && Enabled(w, Exec(ok))
    ensures Born(w, Step(w, Exec(ok)), if ok && FindUnused(w.procs, 0) < MAX_PROCESSES then w.nextPid else -1)
  {
    hide VisitSlot, Dispatch, Reap, SwitchFpu, AfterSwitch, ResumeMe, YieldMe, WaitPid, WaitLoop, ReadLoop, Deliver;
    hide SleepOn, ExitMe, ReceiveChar, WakeAll, PcInv, WaitInv, SerialInv, ExitInv, FpuInv;
    var v := Step(w, Exec(ok));
    var i := FindUnused(w.procs, 0);
    if i < MAX_PROCESSES {
      assert PidOk(w, i);
    }
    if ok && i < MAX_PROCESSES {
      forall j | 0 <= j < MAX_PROCESSES && j != i ensures v.procs[j] == w.procs[j] && v.procs[j].pid != w.nextPid {
        assert PidOk(w, j);
      }
      FindPidIs(v.procs, w.nextPid, i);
    }
  }

  // ----- the wait is bounded

  function VisitCount(actions: seq<Action>): nat {
    if actions == [] then 0 else (if actions[0].Visit? then 1 else 0) + VisitCount(actions[1..])
  }

  lemma {:induction false} VisitCountSplit(actions: seq<Action>, k: nat)
    requires k <= |actions|
    ensures VisitCount(actions) == VisitCount(actions[..k]) + VisitCount(actions[k..])
  {
    if k > 0 {
      VisitCountSplit(actions[1..], k - 1);
      assert actions[..k][1..] == actions[1..][..k - 1] && actions[k..] == actions[1..][k - 1..];
    } else {
      assert actions[0..] == actions;
    }
  }

  lemma {:induction false} SomeVisit(actions: seq<Action>)
    requires VisitCount(actions) > 0
    ensures exists k :: 0 <= k < |actions| && actions[k].Visit?
  {
    if !actions[0].Visit? {
      SomeVisit(actions[1..]);
      var k :| 0 <= k < |actions[1..]| && actions[1..][k].Visit?;
      assert actions[k + 1].Visit?;
    }
  }

  lemma {:induction false} RunSplit(w: World, actions: seq<Action>, k: nat)
    requires IsRun(w, actions) && k <= |actions|
    ensures IsRun(w, actions[..k]) && IsRun(After(w, actions[..k]), actions[k..])
    ensures After(w, actions) == After(After(w, actions[..k]), actions[k..])
    decreases k
  {
    hide Step, Enabled;
    if k > 0 {
      RunSplit(Step(w, actions[0]), actions[1..], k - 1);
      assert actions[..k][1..] == actions[1..][..k - 1] && actions[k..] == actions[1..][k - 1..];
    } else {
      assert actions[..0] == [] && actions[0..] == actions;
    }
  }

  lemma CountsDownSwitching(w: World, a: Action, i: nat)
    requires Inv(w) && Enabled(w, a) && i < MAX_PROCESSES && w.procs[i].state == Runnable && !Dispatches(w, a, i)
    requires Switching(a)
    ensures WellFormed(Step(w, a)) && Step(w, a).procs[i].state == Runnable
    ensures Visits(NextSlot(Step(w, a)), i) == Visits(NextSlot(w), i) - if a.Visit? then 1 else 0
  {
    hide WaitPid, WaitLoop, ReadLoop, Deliver, SleepOn, FindPid, ExitMe, ExecChild, Allocated, ReceiveChar, WakeAll;
    hide PcInv, WaitInv, SerialInv, ExitInv, FpuInv, PidInv, FindUnused;
    assert RunningOk(w, i);
  }

  lemma CountsDownBlocking(w: World, a: Action, i: nat)
    requires Inv(w) && Enabled(w, a) && i < MAX_PROCESSES && w.procs[i].state == Runnable
    requires Blocking(a)
    ensures WellFormed(Step(w, a)) && Step(w, a).procs[i].state == Runnable && NextSlot(Step(w, a)) == NextSlot(w)
  {
    hide Step, Enabled, PcInv, WaitInv, SerialInv, ExitInv, FpuInv, PidInv;
    BlockingOnlyMe(w, a);
    assert RunningOk(w, i);
  }

  lemma CountsDownActing(w: World, a: Action, i: nat)
    requires Inv(w) && Enabled(w, a) && i < MAX_PROCESSES && w.procs[i].state == Runnable
    requires !Switching(a) && !Blocking(a)
    ensures WellFormed(Step(w, a)) && Step(w, a).procs[i].state == Runnable && NextSlot(Step(w, a)) == NextSlot(w)
  {
    hide VisitSlot, Dispatch, Reap, SwitchFpu, AfterSwitch, ResumeMe, YieldMe;
    hide WaitPid, WaitLoop, ReadLoop, Deliver, SleepOn, FindPid;
    hide PcInv, WaitInv, SerialInv, ExitInv, FpuInv, PidInv;
    assert RunningOk(w, i);
  }

  /** Every visit brings the scheduler one slot closer, nothing moves it away, and a ready slot stays
      ready until it is dispatched. */
  lemma CountsDown(w: World, a: Action, i: nat)
    requires Inv(w) && Enabled(w, a) && i < MAX_PROCESSES && w.procs[i].state == Runnable && !Dispatches(w, a, i)
    ensures WellFormed(Step(w, a)) && Step(w, a).procs[i].state == Runnable
    ensures Visits(NextSlot(Step(w, a)), i) == Visits(NextSlot(w), i) - if a.Visit? then 1 else 0
  {
    hide Inv, Step, Enabled, Dispatches, Visits, NextSlot;
    if Switching(a) {
      CountsDownSwitching(w, a, i);
    } else if Blocking(a) {
      CountsDownBlocking(w, a, i);
    } else {
      CountsDownActing(w, a, i);
    }
  }

  /** A ready slot is dispatched within one round of the table: before the scheduler has made more
      visits than lie between it and the slot. */
  lemma {:induction false} DispatchedWithin(w: World, actions: seq<Action>, i: nat)
    requires Inv(w) && IsRun(w, actions) && i < MAX_PROCESSES && w.procs[i].state == Runnable
    requires VisitCount(actions) > Visits(NextSlot(w), i)
    ensures Visits(NextSlot(w), i) < MAX_PROCESSES
    ensures exists k :: 0 <= k < |actions| && VisitCount(actions[..k]) <= Visits(NextSlot(w), i)
                        && IsRun(w, actions[..k]) && Dispatches(After(w, actions[..k]), actions[k], i)
    decreases |actions|
  {
    hide Inv, Step, Enabled, Dispatches;
    VisitsBounded(w, i);
    var a, v, rest := actions[0], Step(w, actions[0]), actions[1..];
    if Dispatches(w, a, i) {
      assert actions[..0] == [] && After(w, actions[..0]) == w;
    } else {
      CountsDown(w, a, i);
      InvKept(w, a);
      DispatchedWithin(v, rest, i);
      var k :| 0 <= k < |rest| && IsRun(v, rest[..k]) && Dispatches(After(v, rest[..k]), rest[k], i)
               && VisitCount(rest[..k]) <= Visits(NextSlot(v), i);
      assert actions[..k + 1][0] == a && actions[..k + 1][1..] == rest[..k] && actions[k + 1] == rest[k];
      assert VisitCount(actions[..k + 1]) <= Visits(NextSlot(w), i);
    }
  }

  lemma VisitsBounded(w: World, i: nat)
    requires i < MAX_PROCESSES
    ensures 0 <= Visits(NextSlot(w), i) < MAX_PROCESSES
  {
  }

  /** A process in proc_wait for the process that exits with `code`: in any run from the exit on in
      which the scheduler looks at more than 64 slots, proc_wait has returned exactly `code`. */
  lemma WaiterReturnsInTime(w: World, code: int, i: nat, actions: seq<Action>)
    requires Inv(w) && Enabled(w, Exit(code)) && i < MAX_PROCESSES
    requires InWait(w.procs[i]) && w.procs[i].pc.pid == Me(w).pid
    requires IsRun(Step(w, Exit(code)), actions) && VisitCount(actions) > MAX_PROCESSES
    ensures Returned(w.procs[i].pid, Me(w).pid, code) in After(Step(w, Exit(code)), actions).log
  {
    hide Inv, Step, IsRun, After, Visits, NextSlot, VisitCount;
    var v := Step(w, Exit(code));
    ExitWakesWaiters(w, code, i);
    InvKept(w, Exit(code));
    VisitsBounded(v, i);
    DispatchedWithin(v, actions, i);
    var k :| 0 <= k < |actions| && IsRun(v, actions[..k]) && Dispatches(After(v, actions[..k]), actions[k], i)
             && VisitCount(actions[..k]) <= Visits(NextSlot(v), i);
    var rest := actions[k + 1..];
    SplitAt(v, actions, k);
    SomeVisit(rest);
    assert exists j :: 0 <= j < |rest| && !rest[j].Resume? && !rest[j].Receive?;
    WaiterReturnsCode(w, code, i, actions[..k], rest);
  }

  /** A run around its action `k`, a visit. */
  lemma SplitAt(v: World, actions: seq<Action>, k: nat)
    requires IsRun(v, actions) && k < |actions| && actions[k] == Visit && VisitCount(actions[..k]) < MAX_PROCESSES
    ensures IsRun(v, actions[..k]) && Enabled(After(v, actions[..k]), Visit)
    ensures IsRun(Step(After(v, actions[..k]), Visit), actions[k + 1..])
    ensures After(v, actions) == After(Step(After(v, actions[..k]), Visit), actions[k + 1..])
    ensures VisitCount(actions) > MAX_PROCESSES ==> VisitCount(actions[k + 1..]) > 0
  {
    hide Step, Enabled;
    RunSplit(v, actions, k);
    VisitCountSplit(actions, k);
    assert actions[k..][0] == Visit && actions[k..][1..] == actions[k + 1..];
  }

  // ----- the FPU

  /** A process that is switched to for the first time finds zeroed registers. */
  lemma NewProcessStartsZeroed(w: World)
    requires Inv(w) && w.mode == Entered && w.running.Some? && Me(w).pc.Fresh?
    ensures w.regs == ZERO_FPU
  {
    hide SerialInv, ExitInv, PidInv, WaitInv, PcInv;
    assert RunningOk(w, w.running.value) && FpuOk(w, w.running.value);
  }

  /** Lazy switching looks like eager switching: whoever runs has in the registers what it last
      computed, which is zero for a process that has computed nothing yet. */
  lemma RegistersBelongToRunner(w: World)
    requires Inv(w) && (w.mode == Entered || w.mode == Free)
    ensures w.running.Some? && w.regs == w.fpuOf[w.running.value]
  {
    hide SerialInv, ExitInv, PidInv, WaitInv, PcInv;
    assert RunningOk(w, w.running.value) && FpuOk(w, w.running.value);
  }

  /** Only a process itself, or its creation in the slot, changes what it last computed. */
  lemma FpuContentsStable(w: World, a: Action, i: nat)
    requires Inv(w) && Enabled(w, a) && i < MAX_PROCESSES && Live(w.procs[i])
    requires !(a.Compute? && w.running == Some(i))
    ensures Step(w, a).fpuOf[i] == w.fpuOf[i]
  {
    hide SerialInv, ExitInv, PidInv, WaitInv, PcInv, FpuInv;
  }
}
