/** The kernel code behind the steps of the scheduler machine: spin locks with their interrupt
    bookkeeping, condition variables, the process table and the serial ring, as they are updated
    in place.  Every operation is proved to be one enabled step of the machine, to take and release
    locks in order, and to hold exactly its own lock whenever it switches context.  The machine's
    invariant is part of the class's, so it excludes the panics on the way. */
module Kernel {
  import opened Basics
  import opened Scheduler

  /** The unread part of the ring. */
  function Unread(buf: seq<int>, r: nat, w: nat): (s: seq<int>)
    requires r < |buf| && w < |buf|
    ensures |s| == if r <= w then w - r else w + (|buf| - r)
  {
    if r <= w then buf[r..w] else buf[r..] + buf[..w]
  }

  lemma UnreadPush(buf: seq<int>, r: nat, w: nat, c: int)
    requires r < |buf| && w < |buf| && NextIndex(|buf|, w) != r
    ensures Unread(buf[w := c], r, NextIndex(|buf|, w)) == Unread(buf, r, w) + [c]
  {
    var buf' := buf[w := c];
    if r <= w {
      assert buf'[r..w + 1] == buf[r..w] + [c];
      assert w + 1 == |buf| ==> buf'[r..] + buf'[..0] == buf'[r..w + 1];
    } else {
      assert buf'[..w + 1] == buf[..w] + [c];
      assert buf'[r..] == buf[r..];
    }
  }

  lemma UnreadPop(buf: seq<int>, r: nat, w: nat)
    requires r < |buf| && w < |buf| && r != w
    ensures Unread(buf, r, w) == [buf[r]] + Unread(buf, NextIndex(|buf|, r), w)
  {
    if r < w {
      assert buf[r..w] == [buf[r]] + buf[r + 1..w];
    } else if r + 1 == |buf| {
      assert buf[r..] == [buf[r]];
      assert buf[..w] == buf[0..w];
    } else {
      assert buf[r..] == [buf[r]] + buf[r + 1..];
      assert ([buf[r]] + buf[r + 1..]) + buf[..w] == [buf[r]] + (buf[r + 1..] + buf[..w]);
    }
  }

  lemma UnreadFull(buf: seq<int>, r: nat, w: nat)
    requires r < |buf| && w < |buf|
    ensures NextIndex(|buf|, w) == r <==> |Unread(buf, r, w)| + 1 == |buf|
    ensures Unread(buf, r, w) == [] <==> r == w
  {
  }

  lemma WakeSparesMe(procs: seq<Proc>, chan: Channel, me: nat)
    requires me < |procs|
    ensures WakeAll(procs, Some(me), chan)[me] == procs[me]
  {
  }

  /** The locks taken on this CPU, its interrupt flag, and cpu_local's interrupt_enable_stack. */
  datatype Cpu = Cpu(locked: set<Channel>, depth: nat, enabled: bool, wasEnabled: bool)

  /** Depth counts the held locks, and interrupts are off while there is one. */
  ghost predicate LocksOk(c: Cpu) {
    c.depth == |c.locked| && (c.depth > 0 ==> !c.enabled)
  }

  lemma OneLock(c: Cpu, l: Channel)
    requires LocksOk(c) && c.locked == {l}
    ensures c.depth == 1 && !c.enabled
  {
  }

  lemma StillOff(c: Cpu)
    requires LocksOk(c)
    ensures c.locked != {} ==> !c.enabled
  {
  }

  lemma FlagFreeWithoutLocks(c: Cpu, flag: bool)
    requires LocksOk(c) && c.locked == {}
    ensures LocksOk(c.(enabled := flag))
  {
  }

  // ----- what the machine's invariant tells the code

  lemma RunningAtCursor(w: World)
    requires Inv(w) && w.running.Some?
    ensures w.running == Some(w.cursor)
  {
    hide PcInv, PidInv, WaitInv, SerialInv, ExitInv, FpuInv;
  }

  lemma ExitedStatus(w: World, t: nat)
    requires Inv(w) && t < MAX_PROCESSES
    ensures w.procs[t].state == Exited ==>
              w.procs[t].pid in w.exitCodes && w.exitCodes[w.procs[t].pid] == w.procs[t].exitStatus
  {
    hide PcInv, PidInv, WaitInv, SerialInv, FpuInv;
    assert StatusOk(w, t);
  }

  /** The target of a woken waiter is another slot, and for a real pid it has exited. */
  lemma WokenFacts(w: World)
    requires Inv(w) && Enabled(w, Recheck) && Me(w).pc.Woken?
    ensures var pc := Me(w).pc;
            && pc.target < MAX_PROCESSES && Some(pc.target) != w.running
            && (pc.pid != 0 ==>
                  && w.procs[pc.target].state == Exited
                  && pc.pid in w.exitCodes && w.exitCodes[pc.pid] == w.procs[pc.target].exitStatus)
  {
    hide PcInv, PidInv, SerialInv, FpuInv;
    var me := w.running.value;
    assert RunningOk(w, me) && WaiterOk(w, me);
    assert StatusOk(w, Me(w).pc.target);
  }

  // ----- single steps, unfolded

  lemma StepSwitches(w: World)
    ensures Enabled(w, Yield) ==> InProcess(w) && Step(w, Yield) == YieldMe(w)
    ensures Enabled(w, Resume) ==>
              WellFormed(w) && w.running.Some? && w.mode == Entered && Step(w, Resume) == ResumeMe(w)
    ensures Enabled(w, Visit) ==>
              WellFormed(w) && w.mode == Sched && w.cursor < MAX_PROCESSES && Step(w, Visit) == Scheduler.VisitSlot(w)
    ensures Enabled(w, Leave) ==>
              WellFormed(w) && w.running.Some? && w.mode == Left && Step(w, Leave) == Scheduler.AfterSwitch(w)
  {
  }

  lemma StepExit(w: World, code: int)
    requires Enabled(w, Exit(code))
    ensures InProcess(w) && Step(w, Exit(code)) == ExitMe(w, code)
  {
  }

  lemma StepWait(w: World, pid: nat)
    requires Enabled(w, Wait(pid))
    ensures InProcess(w) && Me(w).pid != pid && Step(w, Wait(pid)) == WaitPid(w, pid)
  {
  }

  lemma StepRecheck(w: World)
    requires Enabled(w, Recheck)
    ensures InProcess(w)
    ensures Step(w, Recheck) ==
            if Me(w).pc.Woken? then WaitLoop(w, Me(w).pc.target, Me(w).pc.pid) else ReadLoop(w, Me(w).pc.len)
  {
  }

  lemma StepExec(w: World, ok: bool)
    requires Enabled(w, Exec(ok))
    ensures InProcess(w) && Step(w, Exec(ok)) == ExecChild(w, ok)
  {
  }

  lemma StepReceive(w: World, c: int)
    requires Enabled(w, Receive(c))
    ensures WellFormed(w) && Step(w, Receive(c)) == ReceiveChar(w, c)
  {
  }

  lemma StepReads(w: World, len: nat)
    requires Enabled(w, Read(len)) || Enabled(w, ReadAsync(len))
    ensures InProcess(w) && Enabled(w, Read(len)) && Enabled(w, ReadAsync(len))
    ensures Step(w, Read(len)) == if len == 0 then w else ReadLoop(w, len)
    ensures Step(w, ReadAsync(len)) == if len == 0 || w.ring == [] then w else Deliver(w, len)
  {
  }

  lemma FindPidStep(procs: seq<Proc>, pid: nat, i: nat)
    requires i < |procs|
    ensures FindPid(procs, pid, i) == if procs[i].pid == pid then i else FindPid(procs, pid, i + 1)
  {
  }

  lemma FindUnusedStep(procs: seq<Proc>, i: nat)
    requires i < |procs|
    ensures FindUnused(procs, i) == if procs[i].state == Unused then i else FindUnused(procs, i + 1)
  {
  }

  /** The locks held when a mode is entered: none, or that of the running process. */
  function HeldIn(w: World): set<Channel> {
    if (w.mode == Entered || w.mode == Left) && w.running.Some? then {ProcLock(w.running.value)} else {}
  }

  class Kernel {
    var cpu: Cpu
    /** The process table, cpu_local, the scheduler's position, and the history. */
    var w: World
    // the serial ring
    var buf: seq<int>
    var readIndex: nat
    var writeIndex: nat

    ghost predicate RingOk()
      reads `w, `buf, `readIndex, `writeIndex
    {
      && |buf| == SERIAL_BUFFER_LENGTH && readIndex < SERIAL_BUFFER_LENGTH && writeIndex < SERIAL_BUFFER_LENGTH
      && w.ring == Unread(buf, readIndex, writeIndex)
    }

    /** Locks, interrupt flag and ring go with the machine's state. */
    ghost predicate Consistent()
      reads this
    {
      && LocksOk(cpu) && WellFormed(w) && RingOk()
      && (w.mode == Sched <==> w.running == None)
      && cpu.locked == HeldIn(w)
    }

    ghost predicate Valid()
      reads this
    {
      Consistent() && Inv(w)
    }

    /** As the scheduler starts: /init is ready, interrupts are on. */
    constructor ()
      ensures Valid() && w == Boot() && cpu.enabled
    {
      cpu := Cpu({}, 0, true, false);
      w := Boot();
      buf := seq(SERIAL_BUFFER_LENGTH, i => 0);
      readIndex, writeIndex := 0, 0;
      BootInv();
    }

    /** Depth counts the locks held; interrupts are off while there is one; across every context
        switch exactly the lock of the process being switched is held, at depth one; an interrupt
        finds no lock held and the machine ready for it; at most one process is RUNNING. */
    lemma LockDiscipline(c: int)
      requires Valid()
      ensures cpu.depth == |cpu.locked| && (cpu.depth > 0 ==> !cpu.enabled)
      ensures w.mode == Entered || w.mode == Left ==>
                w.running.Some? && cpu.locked == {ProcLock(w.running.value)} && cpu.depth == 1
      ensures w.mode == Sched || w.mode == Free ==> cpu.locked == {}
      ensures cpu.enabled ==> cpu.locked == {} && Enabled(w, Receive(c))
      ensures forall i :: 0 <= i < MAX_PROCESSES && w.procs[i].state == Running ==> w.running == Some(i)
    {
      hide PcInv, PidInv, WaitInv, SerialInv, ExitInv, FpuInv;
      forall i | 0 <= i < MAX_PROCESSES && w.procs[i].state == Running ensures w.running == Some(i) {
        assert RunningOk(w, i);
      }
    }

    // ----- spinlock.c

    method SaveAndDisableInterrupts()
      modifies `cpu
      ensures cpu == old(cpu).(depth := old(cpu).depth + 1, enabled := false,
                               wasEnabled := if old(cpu).depth == 0 then old(cpu).enabled else old(cpu).wasEnabled)
    {
      var interruptsWereEnabled := cpu.enabled;
      cpu := cpu.(enabled := false);
      if cpu.depth == 0 {
        cpu := cpu.(wasEnabled := interruptsWereEnabled);
      }
      cpu := cpu.(depth := cpu.depth + 1);
    }

    method RestoreInterrupts()
      requires cpu.depth > 0
      modifies `cpu
      ensures cpu == old(cpu).(depth := old(cpu).depth - 1,
                               enabled := old(cpu).enabled || (old(cpu).depth == 1 && old(cpu).wasEnabled))
    {
      cpu := cpu.(depth := cpu.depth - 1);
      if cpu.depth == 0 && cpu.wasEnabled {
        cpu := cpu.(enabled := true);
      }
    }

    /** spinlock_lock.  Taking a lock twice would panic: no caller does. */
    method Lock(l: Channel)
      requires LocksOk(cpu) && l !in cpu.locked
      modifies `cpu
      ensures LocksOk(cpu) && cpu.locked == old(cpu).locked + {l} && !cpu.enabled
      ensures cpu.wasEnabled == if old(cpu).locked == {} then old(cpu).enabled else old(cpu).wasEnabled
    {
      SaveAndDisableInterrupts();
      SaveAndDisableInterrupts();   // this_cpu_holding_lock
      RestoreInterrupts();
      cpu := cpu.(locked := cpu.locked + {l});
    }

    /** spinlock_unlock.  Releasing a lock one does not hold would panic: no caller does. */
    method Unlock(l: Channel)
      requires LocksOk(cpu) && l in cpu.locked
      modifies `cpu
      ensures LocksOk(cpu) && cpu.locked == old(cpu).locked - {l} && cpu.wasEnabled == old(cpu).wasEnabled
      ensures cpu.enabled == (cpu.locked == {} && cpu.wasEnabled)
    {
      SaveAndDisableInterrupts();   // this_cpu_holding_lock
      RestoreInterrupts();
      cpu := cpu.(locked := cpu.locked - {l});
      RestoreInterrupts();
    }

    // ----- proc.c, condvar.c, trap.c

    method SetProc(i: nat, p: Proc)
      requires WellFormed(w) && i < MAX_PROCESSES
      modifies `w
      ensures w == old(w).(procs := old(w).procs[i := p])
    {
      w := w.(procs := w.procs[i := p]);
    }

    /** context_switch, either way: only with the lock of the process being switched held, and
        nothing else, at interrupt depth one. */
    method ContextSwitch(to: Mode)
      requires w.running.Some? && cpu.locked == {ProcLock(w.running.value)} && cpu.depth == 1 && !cpu.enabled
      modifies `w
      ensures w == old(w).(mode := to)
    {
      w := w.(mode := to);
    }

    /** scheduler_switch_back, up to its context switch.  Its two panics are excluded. */
    method SwitchBack()
      requires LocksOk(cpu) && WellFormed(w) && w.running.Some? && cpu.locked == {ProcLock(w.running.value)}
      requires Me(w).state != Running
      modifies `w
      ensures w == old(w).(mode := Left)
    {
      OneLock(cpu, ProcLock(w.running.value));
      ContextSwitch(Left);
    }

    /** proc_wakeup: takes each process lock in turn, so none but one's own may be held. */
    method Wakeup(chan: Channel, everyone: bool)
      requires LocksOk(cpu) && WellFormed(w)
      requires forall i: nat :: ProcLock(i) in cpu.locked ==> w.running == Some(i)
      modifies `w, `cpu
      ensures LocksOk(cpu) && cpu.locked == old(cpu).locked && cpu.enabled == old(cpu).enabled
      ensures cpu.locked != {} ==> cpu.wasEnabled == old(cpu).wasEnabled
      ensures w == old(w).(procs := WakeFrom(old(w).procs, w.running, chan, everyone, 0))
    {
      hide LocksOk;
      ghost var target := WakeFrom(w.procs, w.running, chan, everyone, 0);
      ghost var w0 := w;
      var i, done := 0, false;
      while i < MAX_PROCESSES && !done
        invariant 0 <= i <= MAX_PROCESSES && |w.procs| == MAX_PROCESSES
        invariant LocksOk(cpu) && cpu.locked == old(cpu).locked && cpu.enabled == old(cpu).enabled
        invariant cpu.locked != {} ==> cpu.wasEnabled == old(cpu).wasEnabled
        invariant w == w0.(procs := w.procs)
        invariant if done then w.procs == target else WakeFrom(w.procs, w.running, chan, everyone, i) == target
      {
        if w.running == Some(i) {
          i := i + 1;
          continue;
        }
        var woken := WakeSlot(i, chan);
        done := woken && !everyone;
        i := i + 1;
      }
    }

    /** One turn of proc_wakeup's loop. */
    method WakeSlot(i: nat, chan: Channel) returns (woken: bool)
      requires LocksOk(cpu) && WellFormed(w) && i < MAX_PROCESSES && ProcLock(i) !in cpu.locked
      modifies `w, `cpu
      ensures LocksOk(cpu) && cpu.locked == old(cpu).locked && cpu.enabled == old(cpu).enabled
      ensures cpu.locked != {} ==> cpu.wasEnabled == old(cpu).wasEnabled
      ensures woken == SleepsOn(old(w).procs[i], chan)
      ensures w == if woken then old(w).(procs := old(w).procs[i := old(w).procs[i].(state := Runnable)]) else old(w)
    {
      hide LocksOk;
      StillOff(cpu);
      Lock(ProcLock(i));
      woken := w.procs[i].state == Sleeping && w.procs[i].chan == chan;
      if woken {
        w := w.(procs := w.procs[i := w.procs[i].(state := Runnable)]);
      }
      Unlock(ProcLock(i));
    }

    /** T_YEILD, and the first switch of sys_sleep. */
    method YieldCpu()
      requires Valid() && Enabled(w, Yield)
      modifies `w, `cpu
      ensures Valid() && w == Step(old(w), Yield)
    {
      hide LocksOk, Inv, Step, Enabled;
      InvKept(w, Yield);
      StepSwitches(w);
      var me := w.running.value;
      Lock(ProcLock(me));
      SetProc(me, w.procs[me].(state := Runnable, pc := Yielding));
      SwitchBack();
    }

    /** sys_sleep switches back again without having released its lock. */
    method KeepSleeping()
      requires Valid() && Enabled(w, SleepMore)
      modifies `w
      ensures Valid() && w == Step(old(w), SleepMore)
    {
      hide LocksOk, Inv;
      InvKept(w, SleepMore);
      var me := w.running.value;
      SetProc(me, w.procs[me].(state := Runnable));
      SwitchBack();
    }

    /** proc_exit, from taking the lock on. */
    method ProcExit(code: int)
      requires Valid() && Enabled(w, Exit(code))
      modifies `w, `cpu
      ensures Valid() && w == Step(old(w), Exit(code))
    {
      hide LocksOk, WakeAll, WakeFrom, Inv, Step, Enabled;
      InvKept(w, Exit(code));
      StepExit(w, code);
      var me := w.running.value;
      Lock(ProcLock(me));
      SetProc(me, w.procs[me].(exitStatus := code));
      WakeFromIsWakeAll(w.procs, w.running, ProcLock(me));
      WakeSparesMe(w.procs, ProcLock(me), me);
      Wakeup(ProcLock(me), true);
      SetProc(me, w.procs[me].(state := Exited));
      w := w.(exitCodes := w.exitCodes[w.procs[me].pid := code]);
      SwitchBack();
    }

    /** condvar_wait up to its context switch: the process lock is taken before the condition's is
        released, so a notifier cannot slip in between. */
    method CondvarWait(cond: Channel, pc: Pc)
      requires LocksOk(cpu) && WellFormed(w) && w.running.Some?
      requires cpu.locked == {cond} && cond != ProcLock(w.running.value)
      modifies `w, `cpu
      ensures w == SleepOn(old(w), cond, pc) && LocksOk(cpu) && cpu.locked == {ProcLock(old(w).running.value)}
    {
      hide LocksOk;
      var me := w.running.value;
      Lock(ProcLock(me));
      Unlock(cond);
      SetProc(me, w.procs[me].(state := Sleeping, chan := cond, pc := pc));
      SwitchBack();
    }

    /** The process switched to gives up its lock: the rest of condvar_wait up to re-taking the
        condition's lock, the rest of a yield, or the start of a fresh process. */
    method ResumeProcess()
      requires Valid() && Enabled(w, Resume)
      modifies `w, `cpu
      ensures Valid() && w == Step(old(w), Resume)
    {
      hide LocksOk, Inv, Step, Enabled;
      InvKept(w, Resume);
      StepSwitches(w);
      var me := w.running.value;
      var pc := w.procs[me].pc;
      Unlock(ProcLock(me));
      SetProc(me, w.procs[me].(pc := if pc.Waiting? then Woken(pc.target, pc.pid)
          else if pc.Reading? then WokenRead(pc.len) else InUser));
      w := w.(mode := Free);
    }

    /** The loop of proc_wait, with the lock of slot `t` held: returns a status, or is switched out. */
    method WaitForExit(t: nat, pid: nat) returns (status: Option<int>)
      requires LocksOk(cpu) && WellFormed(w) && w.running.Some? && w.mode == Free && RingOk()
      requires t < MAX_PROCESSES && t != w.running.value && cpu.locked == {ProcLock(t)}
      modifies `w, `cpu
      ensures Consistent() && w == WaitLoop(old(w), t, pid)
      ensures status.None? <==> w.mode == Left
      ensures status.Some? ==> status.value == old(w).procs[t].exitStatus
    {
      hide LocksOk;
      var me := w.running.value;
      if w.procs[t].state != Exited {
        CondvarWait(ProcLock(t), Waiting(t, pid));
        return None;
      }
      var exitStatus := w.procs[t].exitStatus;
      Unlock(ProcLock(t));
      w := w.(log := w.log + [Returned(w.procs[me].pid, pid, exitStatus)]);
      SetProc(me, w.procs[me].(pc := InUser));
      return Some(exitStatus);
    }

    /** proc_wait: looks the pid up, one process lock at a time, then waits.  -1 means no such pid;
        a status is the one the process with that pid exited with. */
    method ProcWait(pid: nat) returns (status: Option<int>)
      requires Valid() && Enabled(w, Wait(pid))
      modifies `w, `cpu
      ensures Valid() && w == Step(old(w), Wait(pid))
      ensures var t := FindPid(old(w).procs, pid, 0);
              status == if t == MAX_PROCESSES then Some(-1)
                        else if old(w).procs[t].state == Exited then Some(old(w).procs[t].exitStatus)
                        else None
      ensures status.None? <==> w.mode == Left
      ensures status.Some? && FindPid(old(w).procs, pid, 0) < MAX_PROCESSES && pid != 0 ==>
                pid in w.exitCodes && status.value == w.exitCodes[pid]
    {
      hide LocksOk, Inv, FindPid, Step, Enabled;
      InvKept(w, Wait(pid));
      StepWait(w, pid);
      ghost var found := FindPid(w.procs, pid, 0);
      if found < MAX_PROCESSES { ExitedStatus(w, found); }
      var i := 0;
      while i < MAX_PROCESSES
        invariant 0 <= i <= MAX_PROCESSES
        invariant Consistent() && w == old(w)
        invariant found == FindPid(w.procs, pid, i)
      {
        FindPidStep(w.procs, pid, i);
        Lock(ProcLock(i));
        if w.procs[i].pid == pid {
          status := WaitForExit(i, pid);
          return;
        }
        Unlock(ProcLock(i));
        i := i + 1;
      }
      return Some(-1);
    }

    /** proc_wait once woken: takes the target's lock again and looks.  A waiter for a real pid
        always finds the target exited, and returns what it exited with. */
    method WaitAgain() returns (status: Option<int>)
      requires Valid() && Enabled(w, Recheck) && Me(w).pc.Woken?
      modifies `w, `cpu
      ensures Valid() && w == Step(old(w), Recheck)
      ensures status.None? <==> w.mode == Left
      ensures Me(old(w)).pc.target < MAX_PROCESSES
      ensures status.Some? ==> status.value == old(w).procs[Me(old(w)).pc.target].exitStatus
      ensures var pid := Me(old(w)).pc.pid;
              pid != 0 ==> pid in w.exitCodes && status == Some(w.exitCodes[pid])
    {
      hide LocksOk, Inv, Step, Enabled, Unread;
      InvKept(w, Recheck);
      StepRecheck(w);
      WokenFacts(w);
      var pc := Me(w).pc;
      Lock(ProcLock(pc.target));
      status := WaitForExit(pc.target, pc.pid);
    }

    /** load_additional_data_if_needed. */
    method LoadAdditionalData(new_: nat)
      requires WellFormed(w) && new_ < MAX_PROCESSES
      modifies `w
      ensures w == old(w).(procs := SwitchFpu(old(w).procs, old(w).last, new_, old(w).regs).0,
                           regs := SwitchFpu(old(w).procs, old(w).last, new_, old(w).regs).1)
    {
      if w.last == Some(new_) {
        return;
      }
      if w.last.Some? {
        SetProc(w.last.value, w.procs[w.last.value].(fpu := w.regs));
      }
      w := w.(regs := w.procs[new_].fpu);
    }

    /** One turn of the scheduler's inner loop, up to its context switch or to the next slot. */
    method VisitSlot()
      requires Valid() && Enabled(w, Visit)
      modifies `w, `cpu
      ensures Valid() && w == Step(old(w), Visit)
    {
      hide LocksOk, Inv, Step, Enabled;
      InvKept(w, Visit);
      StepSwitches(w);
      var i := w.cursor;
      Lock(ProcLock(i));
      if w.procs[i].state == Runnable {
        SetProc(i, w.procs[i].(state := Running));
        LoadAdditionalData(i);
        w := w.(running := Some(i), last := Some(i));
        OneLock(cpu, ProcLock(i));
        ContextSwitch(Entered);
        return;
      }
      if w.procs[i].state == Exited {
        SetProc(i, w.procs[i].(state := Unused, pid := 0, fpu := ZERO_FPU));
        if w.last == Some(i) {
          w := w.(last := None);
        }
      }
      Unlock(ProcLock(i));
      w := w.(cursor := i + 1);
    }

    /** The scheduler after context_switch returns. */
    method AfterSwitch()
      requires Valid() && Enabled(w, Leave)
      modifies `w, `cpu
      ensures Valid() && w == Step(old(w), Leave)
    {
      hide LocksOk, Inv, Step, Enabled;
      InvKept(w, Leave);
      StepSwitches(w);
      RunningAtCursor(w);
      w := w.(running := None, mode := Sched);
      Unlock(ProcLock(w.cursor));
      w := w.(cursor := w.cursor + 1);
    }

    /** The head of the scheduler's outer loop turns interrupts on; no lock is held there. */
    method StartRound()
      requires Valid() && Enabled(w, Wrap)
      modifies `w, `cpu
      ensures Valid() && w == Step(old(w), Wrap) && cpu.enabled
    {
      hide Inv;
      InvKept(w, Wrap);
      FlagFreeWithoutLocks(cpu, true);
      cpu := cpu.(enabled := true);
      w := w.(cursor := 0);
    }

    /** proc_allocate, and whether the rest of proc_exec made the process runnable.  The slot is
        claimed under its lock and filled in after the lock is released. */
    method ExecProcess(ok: bool) returns (pid: int)
      requires Valid() && Enabled(w, Exec(ok))
      modifies `w, `cpu
      ensures Valid() && w == Step(old(w), Exec(ok))
      ensures pid == if ok && FindUnused(old(w).procs, 0) < MAX_PROCESSES then old(w).nextPid else -1
      ensures Born(old(w), w, pid)
    {
      hide LocksOk, Inv, Step, Enabled, Born;
      InvKept(w, Exec(ok));
      ExecBears(w, ok);
      StepExec(w, ok);
      ghost var free := FindUnused(w.procs, 0);
      var i := 0;
      while i < MAX_PROCESSES
        invariant 0 <= i <= MAX_PROCESSES
        invariant Consistent() && w == old(w)
        invariant free == FindUnused(w.procs, i)
      {
        FindUnusedStep(w.procs, i);
        Lock(ProcLock(i));
        if w.procs[i].state == Unused {
          pid := Claim(i, ok);
          return;
        }
        Unlock(ProcLock(i));
        i := i + 1;
      }
      return -1;
    }

    /** The slot found is claimed under its lock, and the rest is stored after that. */
    method Claim(i: nat, ok: bool) returns (pid: int)
      requires LocksOk(cpu) && WellFormed(w) && i < MAX_PROCESSES && cpu.locked == {ProcLock(i)}
      modifies `w, `cpu
      ensures LocksOk(cpu) && cpu.locked == {} && w == Allocated(old(w), i, ok)
      ensures pid == if ok then old(w).nextPid else -1
      ensures ok ==> w.procs[i].pid == pid && w.procs[i].state == Runnable && w.procs[i].pc == Fresh
    {
      hide LocksOk;
      SetProc(i, w.procs[i].(state := Used, pid := w.nextPid, exitStatus := -1));
      w := w.(nextPid := w.nextPid + 1);
      Unlock(ProcLock(i));
      pid := Populate(i, ok);
      assert w.procs == Allocated(old(w), i, ok).procs;
    }

    /** What the rest of proc_allocate and proc_exec store in the slot claimed. */
    method Populate(i: nat, ok: bool) returns (pid: int)
      requires WellFormed(w) && i < MAX_PROCESSES
      modifies `w
      ensures var p := old(w).procs[i].(fpu := ZERO_FPU);
              w == old(w).(procs := old(w).procs[i := if ok then p.(state := Runnable, pc := Fresh)
                  else p.(state := Unused, pid := 0)],
                           fpuOf := old(w).fpuOf[i := ZERO_FPU])
      ensures pid == if ok then old(w).procs[i].pid else -1
    {
      SetProc(i, w.procs[i].(fpu := ZERO_FPU));
      w := w.(fpuOf := w.fpuOf[i := ZERO_FPU]);
      if ok {
        SetProc(i, w.procs[i].(state := Runnable, pc := Fresh));
        return w.procs[i].pid;
      }
      SetProc(i, w.procs[i].(state := Unused, pid := 0));
      return -1;
    }

    // ----- serial_port.c

    /** The store into the ring. */
    method PushChar(c: int)
      requires RingOk() && NextIndex(SERIAL_BUFFER_LENGTH, writeIndex) != readIndex
      modifies `w, `buf, `writeIndex
      ensures RingOk() && w == old(w).(ring := old(w).ring + [c], accepted := old(w).accepted + [c])
    {
      UnreadPush(buf, readIndex, writeIndex, c);
      buf := buf[writeIndex := c];
      writeIndex := (writeIndex + 1) % SERIAL_BUFFER_LENGTH;
      w := w.(ring := w.ring + [c], accepted := w.accepted + [c]);
    }

    /** serial_received_char, from the interrupt gate, which turns interrupts off, to iretq. */
    method SerialReceivedChar(received: int)
      requires Valid() && cpu.enabled
      modifies this
      ensures Valid() && cpu.enabled
      ensures var a := Receive(if received == 13 then 10 else received);
              Enabled(old(w), a) && w == Step(old(w), a)
      ensures w.ring == old(w).ring + if |old(w).ring| < SERIAL_BUFFER_LENGTH - 1
                                      then [if received == 13 then 10 else received] else []
    {
      hide WakeAll, WakeFrom, LocksOk, Inv, Step, Enabled, Unread;
      LockDiscipline(if received == 13 then 10 else received);
      InvKept(w, Receive(if received == 13 then 10 else received));
      StepReceive(w, if received == 13 then 10 else received);
      FlagFreeWithoutLocks(cpu, false);
      cpu := cpu.(enabled := false);
      var c := if received == 13 then 10 else received;
      Lock(SerialLock);
      AcceptChar(c);
      Unlock(SerialLock);
      FlagFreeWithoutLocks(cpu, true);
      cpu := cpu.(enabled := true);
    }

    /** With the serial lock held: the character goes into the ring and readers are woken, or the ring
        is full. */
    method AcceptChar(c: int)
      requires LocksOk(cpu) && WellFormed(w) && RingOk() && cpu.locked == {SerialLock}
      modifies this
      ensures LocksOk(cpu) && RingOk() && cpu.locked == {SerialLock} && w == ReceiveChar(old(w), c)
    {
      hide WakeAll, WakeFrom, LocksOk;
      UnreadFull(buf, readIndex, writeIndex);
      if (writeIndex + 1) % SERIAL_BUFFER_LENGTH != readIndex {
        PushChar(c);
        WakeFromIsWakeAll(w.procs, w.running, SerialLock);
        Wakeup(SerialLock, true);
      }
    }

    /** The copy loop of internal_serial_read: the oldest `n` characters, in order. */
    method CopyOut(n: nat) returns (bytes: seq<int>)
      requires RingOk() && n <= |w.ring|
      modifies `w, `readIndex
      ensures RingOk() && bytes == old(w).ring[..n]
      ensures w == old(w).(ring := old(w).ring[n..], delivered := old(w).delivered + bytes)
    {
      hide Unread;
      ghost var ring := w.ring;
      bytes := [];
      var i := 0;
      while i < n
        invariant 0 <= i <= n && readIndex < SERIAL_BUFFER_LENGTH && w == old(w)
        invariant Unread(buf, readIndex, writeIndex) == ring[i..]
        invariant bytes == ring[..i]
      {
        UnreadFull(buf, readIndex, writeIndex);
        UnreadPop(buf, readIndex, writeIndex);
        assert ring[i..][1..] == ring[i + 1..];
        bytes := bytes + [buf[readIndex]];
        readIndex := (readIndex + 1) % SERIAL_BUFFER_LENGTH;
        i := i + 1;
      }
      w := w.(ring := w.ring[n..], delivered := w.delivered + bytes);
    }

    /** internal_serial_read with the serial lock held and something to read. */
    method ReadOut(len: nat) returns (bytes: seq<int>)
      requires LocksOk(cpu) && WellFormed(w) && w.running.Some? && w.mode == Free && RingOk()
      requires cpu.locked == {SerialLock}
      modifies `w, `cpu, `readIndex
      ensures Consistent() && w == Deliver(old(w), len)
      ensures bytes == old(w).ring[..Min(len, |old(w).ring|)]
    {
      hide LocksOk, Unread;
      var available := if writeIndex < readIndex then writeIndex + (SERIAL_BUFFER_LENGTH - readIndex)
          else writeIndex - readIndex;
      bytes := CopyOut(if len > available then available else len);
      Unlock(SerialLock);
      SetProc(w.running.value, Me(w).(pc := InUser));
    }

    /** internal_serial_read: None means switched out in condvar_wait, because there was nothing to
        read; the same loop runs again when the process comes back. */
    method SerialRead(len: nat, async: bool) returns (bytes: Option<seq<int>>)
      requires Valid() && Enabled(w, if async then ReadAsync(len) else Read(len))
      modifies `w, `cpu, `readIndex
      ensures Valid() && w == Step(old(w), if async then ReadAsync(len) else Read(len))
      ensures bytes == if old(w).ring == [] && !async &&
          len > 0 then None else Some(old(w).ring[..Min(len, |old(w).ring|)])
    {
      hide LocksOk, Inv, Step, Enabled, Unread;
      InvKept(w, if async then ReadAsync(len) else Read(len));
      StepReads(w, len);
      if len == 0 {
        return Some([]);
      }
      UnreadFull(buf, readIndex, writeIndex);
      Lock(SerialLock);
      if readIndex == writeIndex {
        if async {
          Unlock(SerialLock);
          return Some([]);
        }
        CondvarWait(SerialLock, Reading(len));
        return None;
      }
      var out := ReadOut(len);
      return Some(out);
    }

    /** internal_serial_read once woken. */
    method SerialReadAgain() returns (bytes: Option<seq<int>>)
      requires Valid() && Enabled(w, Recheck) && Me(w).pc.WokenRead?
      modifies `w, `cpu, `readIndex
      ensures Valid() && w == Step(old(w), Recheck)
      ensures bytes == if old(w).ring == [] then None
                       else Some(old(w).ring[..Min(Me(old(w)).pc.len, |old(w).ring|)])
    {
      hide LocksOk, Inv, Step, Enabled, Unread;
      InvKept(w, Recheck);
      StepRecheck(w);
      var len := Me(w).pc.len;
      UnreadFull(buf, readIndex, writeIndex);
      Lock(SerialLock);
      if readIndex == writeIndex {
        CondvarWait(SerialLock, Reading(len));
        return None;
      }
      var out := ReadOut(len);
      return Some(out);
    }
  }
}
