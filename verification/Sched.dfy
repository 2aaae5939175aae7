/** Processors and spinlocks (proc.c). */
module Sched {
  // Processors, processes and ptable.lock as interleaved steps (proc.c, spinlock.c, trap.c).

  import opened Options
  import opened ProcTable

  /** How far a processor is in an interrupt handler. Tick..Charge: the timer interrupt of processor 0 before
      tickslock, holding it, after ticks++ and after wakeup(&ticks); Timer: only the yield is left. */
  datatype Irq = NoIrq | Device | Tick | Ticking | Ticked | Charge | Timer

  /** The next thing a processor does. Top, Scan and Back are in scheduler(); the others, from Resume on, are in
      the kernel thread of the process it runs, except that Run without a process is the idle scheduler. */
  datatype Pc =
    | Top | Scan | Back
    | Resume
    | Run(irq: Irq) | Waking(irq: Irq, chan: Chan) | Unlock(irq: Irq)
    | Yielding | Sleeping(chan: Chan, lk: Lock) | Exiting | Waiting | Forking | Starting | Killing(pid: nat)

  /** `held` are the locks whose cpu field is this processor, `scan` is the scheduler's loop variable. */
  datatype Cpu = Cpu(proc: Option<nat>, ncli: int, intena: bool, ifl: bool, held: set<Lock>, scan: nat, pc: Pc)

  /** `died` and `reaped` record the pids of processes that exited and that wait returned, `charges` how many
      times a process was charged for a tick. */
  datatype State = State(procs: seq<Proc>, cpus: seq<Cpu>, ticks: nat, nextpid: nat, init: nat,
                         died: set<nat>, reaped: set<nat>, charges: nat)

  // ----- spinlock.c -----

  /** pushcli and the exchange that succeeds. */
  function Acquire(k: Cpu, l: Lock): Cpu
  {
    k.(ncli := k.ncli + 1, intena := if k.ncli == 0 then k.ifl else k.intena, ifl := false, held := k.held + {l})
  }

  /** The exchange, then popcli. */
  function Release(k: Cpu, l: Lock): Cpu
  {
    k.(held := k.held - {l}, ncli := k.ncli - 1, ifl := if k.ncli == 1 && k.intena then true else k.ifl)
  }

  predicate AcquirePanics(k: Cpu, l: Lock) { l in k.held }

  predicate ReleasePanics(k: Cpu, l: Lock) { l !in k.held || k.ifl || k.ncli - 1 < 0 }

  /** The four checks of sched(), for process p. */
  predicate SchedPanics(k: Cpu, p: Proc) { Ptable !in k.held || k.ncli != 1 || p.state == RUNNING || k.ifl }

  // ----- steps that change only the processor -----

  datatype CpuAction =
    | Sti | Lookup | Skip | EndScan | Drop | Unlocks
    | Take(lk: Lock) | Give(lk: Lock)
    | Interrupt(irq: Irq) | Iret | TickLock | NoYield | YieldLock
    | WakeLock(chan: Chan) | SleepLock(chan: Chan,
        lk: Lock) | ExitLock | WaitLock | ForkLock | StartLock | KillLock(pid: nat)

  /** The lock that the step acquires. */
  function Takes(a: CpuAction): Option<Lock>
  {
    match a
    case Sti | Skip | EndScan | Drop | Unlocks | Give(_) | Interrupt(_) | Iret | NoYield => None
    case Take(lk) => Some(lk)
    case TickLock => Some(Tickslock)
    case _ => Some(Ptable)
  }

  /** The lock that the step releases. */
  function Gives(a: CpuAction): Option<Lock>
  {
    match a
    case EndScan | Unlocks => Some(Ptable)
    case Give(lk) => Some(lk)
    case _ => None
  }

  predicate Mine(k: Cpu, ps: seq<Proc>) { k.proc.Some? && k.proc.value < |ps| }

  /** In kernel code of a system call, outside interrupts. */
  predicate InSyscall(k: Cpu, ps: seq<Proc>) { k.pc == Run(NoIrq) && Mine(k, ps) && ps[k.proc.value].at == Kernel }

  /** In code that may take other locks: a system call, fork's unlocked part, a device interrupt. */
  predicate MayLock(k: Cpu, ps: seq<Proc>)
  {
    || k.pc == Run(Device)
    || (k.pc == Run(NoIrq) && Mine(k, ps) && !ps[k.proc.value].at.User? && !ps[k.proc.value].at.Relock?)
  }

  /** When processor number c can do `a` next (apart from having to wait for a lock). */
  predicate CpuEnabled(k: Cpu, c: nat, ps: seq<Proc>, a: CpuAction)
  {
    match a
    case Sti => k.pc == Top
    case Lookup => k.pc == Run(NoIrq) && k.proc == None
    case Skip => k.pc == Scan && k.scan < |ps| && ps[k.scan].state != RUNNABLE
    case EndScan => k.pc == Scan && k.scan >= |ps|
    case Drop => k.pc == Back
    case Unlocks => k.pc.Unlock?
    case Take(lk) => MayLock(k, ps) && lk != Ptable && lk !in k.held
    case Give(lk) => (MayLock(k, ps) || k.pc == Run(Charge)) && lk != Ptable && lk in k.held
    case Interrupt(irq) => k.pc == Run(NoIrq) && k.ifl && irq in {Device, if c == 0 then Tick else Timer}
    case Iret => k.pc == Run(Device) && k.held == {}
    case TickLock => k.pc == Run(Tick)
    case NoYield => k.pc == Run(Timer) && !(Mine(k, ps) && ps[k.proc.value].state == RUNNING)
    case YieldLock => k.pc == Run(Timer) && Mine(k, ps) && ps[k.proc.value].state == RUNNING
    case WakeLock(chan) => if k.pc == Run(Ticked) then chan == Ticks else MayLock(k, ps)
    case SleepLock(chan, lk) => InSyscall(k, ps) && k.held == {lk} && !chan.Slot?
    case ExitLock =>
      && k.held == {}
      && (InSyscall(k, ps) || (k.pc in {Run(Device), Run(Timer)} && Mine(k, ps) && ps[k.proc.value].at == User
          && ps[k.proc.value].killed))
    case WaitLock | ForkLock | KillLock(_) => InSyscall(k, ps) && k.held == {}
    case StartLock => k.pc == Run(NoIrq) && Mine(k, ps) && ps[k.proc.value].at.Adopted? && k.held == {}
  }

  function NextPc(k: Cpu, a: CpuAction): Pc
  {
    match a
    case Sti => Run(NoIrq)
    case Lookup | Skip | Drop => Scan
    case EndScan => Top
    case Unlocks => if k.pc.Unlock? then Run(k.pc.irq) else k.pc
    case Take(_) | Give(_) => k.pc
    case Interrupt(irq) => Run(irq)
    case Iret => Run(NoIrq)
    case TickLock => Run(Ticking)
    case NoYield => Run(Device)
    case YieldLock => Yielding
    case WakeLock(chan) => if k.pc.Run? then Waking(if k.pc.irq == Ticked then Charge else k.pc.irq, chan) else k.pc
    case SleepLock(chan, lk) => Sleeping(chan, lk)
    case ExitLock => Exiting
    case WaitLock => Waiting
    case ForkLock => Forking
    case StartLock => Starting
    case KillLock(pid) => Killing(pid)
  }

  function CpuNext(k: Cpu, a: CpuAction): Cpu
  {
    var k1 := match a {
                case Sti | Iret => k.(ifl := true)
                case Interrupt(_) => k.(ifl := false)
                case Lookup => k.(scan := 0)
                case Skip => k.(scan := k.scan + 1)
                case Drop => k.(proc := None, scan := k.scan + 1)
                case _ => k
              };
    var k2 := match Takes(a) { case Some(l) => Acquire(k1, l) case None => k1 };
    var k3 := match Gives(a) { case Some(l) => Release(k2, l) case None => k2 };
    k3.(pc := NextPc(k, a))
  }

  /** exit called by init, which panics before it takes the lock. */
  predicate InitExits(k: Cpu, init: nat, a: CpuAction) { a.ExitLock? && k.proc == Some(init) }

  predicate CpuPanics(k: Cpu, a: CpuAction)
  {
    || (Takes(a).Some? && AcquirePanics(k, Takes(a).value))
    || (Gives(a).Some? && ReleasePanics(k, Gives(a).value))
  }

  // ----- the processor's part of the invariant -----

  predicate Live(p: Proc) { p.state in {SLEEPING, RUNNABLE, RUNNING} }

  /** A saved context goes with where the thread is: sched returns into yield with interrupts off, into sleep
      with the lock to retake, into wait; a new process starts in forkret. */
  predicate FrameOk(p: Proc)
  {
    match p.frame
    case InYield => !p.intena
    case InSleep => p.at.Relock?
    case InWait => p.at == Kernel
    case InForkret => p.at == User
    case InExit => false
  }

  predicate HasTable(pc: Pc) { pc != Top && !pc.Run? }

  predicate RunOk(k: Cpu, c: nat, ps: seq<Proc>, irq: Irq, others: set<Lock>)
  {
    && (Mine(k, ps) ==> ps[k.proc.value].state == RUNNING)
    && (irq != NoIrq ==> !k.ifl && (k.held != {} ==> !k.intena))
    && (irq == NoIrq && k.proc.None? ==> k.pc == Run(NoIrq))
    && (irq == NoIrq && Mine(k, ps) && (ps[k.proc.value].at.User? || ps[k.proc.value].at.Relock?) ==> others == {})
    && (irq == NoIrq && k.proc.None? ==> others == {})
    && (irq in {Tick, Ticking, Ticked, Charge} ==> c == 0)
    && (irq in {Tick, Timer} ==> others == {})
    && (irq in {Ticking, Ticked} ==> others == {Tickslock})
    && (irq == Charge ==> others <= {Tickslock})
    && (irq in {Tick, Ticking, Ticked, Timer} ==> k.pc.Run?)
  }

  predicate OwnOk(k: Cpu, ps: seq<Proc>, init: nat)
    requires k.pc != Top && k.pc != Scan && k.pc != Back && !k.pc.Run? && !k.pc.Waking? && !k.pc.Unlock?
  {
    && Mine(k, ps) && ps[k.proc.value].state == RUNNING
    && (!k.pc.Sleeping? ==> k.held == {Ptable})
    && var p := ps[k.proc.value];
       match k.pc
       case Resume => FrameOk(p)
       case Yielding => !k.intena
       case Sleeping(chan, lk) => lk != Ptable && k.held == {Ptable, lk} && p.at == Kernel && !chan.Slot?
       case Exiting => (p.at == Kernel || p.at == User) && k.proc != Some(init)
       case Starting => p.at.Adopted?
       case _ => p.at == Kernel
  }

  predicate CpuOk(k: Cpu, c: nat, ps: seq<Proc>, init: nat)
  {
    && k.ncli == |k.held| && (k.held != {} ==> !k.ifl)
    && (Ptable in k.held <==> HasTable(k.pc))
    && (k.proc.Some? ==> k.proc.value < |ps| && k.scan == k.proc.value)
    && match k.pc
       case Top => k.proc == None && k.held == {}
       case Scan => k.proc == None && k.held == {Ptable} && k.scan <= |ps|
       case Back => Mine(k, ps) && k.held == {Ptable} && ps[k.proc.value].state in {SLEEPING, RUNNABLE, ZOMBIE}
       case Run(irq) => RunOk(k, c, ps, irq, k.held)
       case Waking(irq, _) => RunOk(k, c, ps, irq, k.held - {Ptable})
       case Unlock(irq) => RunOk(k, c, ps, irq, k.held - {Ptable})
       case _ => OwnOk(k, ps, init)
  }

  /** Acquiring one more lock. */
  lemma {:induction false} AcquireOk(k: Cpu, l: Lock)
    requires k.ncli == |k.held| && l !in k.held
    ensures Acquire(k, l).ncli == |Acquire(k, l).held| && Acquire(k, l).held != {} && !Acquire(k, l).ifl
    ensures Acquire(k, l).held - {l} == k.held
    ensures k.held == {} ==> Acquire(k, l).held == {l} && Acquire(k, l).intena == k.ifl
    ensures k.held != {} ==> Acquire(k, l).intena == k.intena
  {
    assert k.held != {} ==> |k.held| > 0 by {
      if k.held != {} { var x :| x in k.held; assert |k.held - {x}| == |k.held| - 1; }
    }
  }

  lemma {:induction false} ReleaseOk(k: Cpu, l: Lock)
    requires k.ncli == |k.held| && l in k.held && !k.ifl
    ensures !ReleasePanics(k, l)
    ensures Release(k, l).ncli == |Release(k, l).held|
    ensures Release(k, l).held != {} ==> !Release(k, l).ifl
    ensures !k.intena ==> !Release(k, l).ifl
  {
    assert |k.held - {l}| == |k.held| - 1;
    if k.held - {l} != {} {
      var x :| x in k.held - {l};
      assert |k.held - {l} - {x}| == |k.held - {l}| - 1;
    }
  }

  ghost predicate Kept(k: Cpu, c: nat, ps: seq<Proc>, a: CpuAction, init: nat)
  {
    && !CpuPanics(k, a) && CpuOk(CpuNext(k, a), c, ps, init)
    && CpuNext(k, a).proc == (if a.Drop? then None else k.proc)
    && CpuNext(k, a).held == (k.held + (if Takes(a).Some? then {Takes(a).value} else {}))
                             - (if Gives(a).Some? then {Gives(a).value} else {})
  }

  lemma {:induction false} WakeLocks(k: Cpu, c: nat, ps: seq<Proc>, init: nat, a: CpuAction)
    requires CpuOk(k, c, ps, init) && CpuEnabled(k, c, ps, a) && a.WakeLock?
    ensures Kept(k, c, ps, a, init)
  {
    AcquireOk(k, Ptable);
  }

  lemma {:induction false} LookupLocks(k: Cpu, c: nat, ps: seq<Proc>, init: nat, a: CpuAction)
    requires CpuOk(k, c, ps, init) && CpuEnabled(k, c, ps, a) && a.Lookup?
    ensures Kept(k, c, ps, a, init)
  {
    AcquireOk(k.(scan := 0), Ptable);
  }

  lemma {:induction false} YieldLocks(k: Cpu, c: nat, ps: seq<Proc>, init: nat, a: CpuAction)
    requires CpuOk(k, c, ps, init) && CpuEnabled(k, c, ps, a) && a.YieldLock?
    ensures Kept(k, c, ps, a, init)
  {
    AcquireOk(k, Ptable);
  }

  lemma {:induction false} SleepLocks(k: Cpu, c: nat, ps: seq<Proc>, init: nat, a: CpuAction)
    requires CpuOk(k, c, ps, init) && CpuEnabled(k, c, ps, a) && a.SleepLock?
    ensures Kept(k, c, ps, a, init)
  {
    AcquireOk(k, Ptable);
  }

  lemma {:induction false} SyscallLocks(k: Cpu, c: nat, ps: seq<Proc>, init: nat, a: CpuAction)
    requires CpuOk(k, c, ps, init) && CpuEnabled(k, c, ps, a)
    requires a.WaitLock? || a.ForkLock? || a.StartLock? || a.KillLock?
    ensures Kept(k, c, ps, a, init)
  {
    AcquireOk(k, Ptable);
  }

  lemma {:induction false} ExitLocks(k: Cpu, c: nat, ps: seq<Proc>, init: nat, a: CpuAction)
    requires CpuOk(k, c, ps, init) && CpuEnabled(k, c, ps, a) && !InitExits(k, init, a) && a.ExitLock?
    ensures Kept(k, c, ps, a, init)
  {
    AcquireOk(k, Ptable);
  }

  lemma {:induction false} TakesOther(k: Cpu, c: nat, ps: seq<Proc>, init: nat, a: CpuAction)
    requires CpuOk(k, c, ps, init) && CpuEnabled(k, c, ps, a) && Takes(a).Some? && Takes(a) != Some(Ptable)
    ensures Kept(k, c, ps, a, init)
  {
    AcquireOk(k, Takes(a).value);
  }

  lemma {:induction false} GivesLock(k: Cpu, c: nat, ps: seq<Proc>, init: nat, a: CpuAction)
    requires CpuOk(k, c, ps, init) && CpuEnabled(k, c, ps, a) && a.Give?
    ensures Kept(k, c, ps, a, init)
  {
    ReleaseOk(k, a.lk);
  }

  lemma {:induction false} GivesTable(k: Cpu, c: nat, ps: seq<Proc>, init: nat, a: CpuAction)
    requires CpuOk(k, c, ps, init) && CpuEnabled(k, c, ps, a) && (a.EndScan? || a.Unlocks?)
    ensures Kept(k, c, ps, a, init)
  {
    ReleaseOk(k, Ptable);
  }

  /** The steps of one processor keep its part of the invariant, and none of them panics but init's exit. */
  lemma {:induction false} CpuKeeps(k: Cpu, c: nat, ps: seq<Proc>, init: nat, a: CpuAction)
    requires CpuOk(k, c, ps, init) && CpuEnabled(k, c, ps, a) && !InitExits(k, init, a)
    ensures Kept(k, c, ps, a, init)
  {
    if a.Give? {
      GivesLock(k, c, ps, init, a);
    } else if Gives(a).Some? {
      GivesTable(k, c, ps, init, a);
    } else if a.WakeLock? {
      WakeLocks(k, c, ps, init, a);
    } else if a.Lookup? {
      LookupLocks(k, c, ps, init, a);
    } else if a.ExitLock? {
      ExitLocks(k, c, ps, init, a);
    } else if a.YieldLock? {
      YieldLocks(k, c, ps, init, a);
    } else if a.SleepLock? {
      SleepLocks(k, c, ps, init, a);
    } else if Takes(a) == Some(Ptable) && !a.Take? {
      SyscallLocks(k, c, ps, init, a);
    } else if Takes(a).Some? {
      TakesOther(k, c, ps, init, a);
    }
  }
}
