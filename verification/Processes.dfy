/** Interleaved steps (proc.c, trap.c). */
module Processes {
  // Every interleaving of the processors' steps: the scheduler hand-off, exit and wait, tick accounting.

  import opened Options
  import opened ProcTable
  import opened Sched

  // ----- steps that change the process table -----

  datatype Action =
    | OnCpu(a: CpuAction)
    | Pick | ResumeProc | WakeAll | YieldGo | SleepGo | ExitGo | WaitGo | ForkGo | StartGo | KillGo
    | TickInc | ChargeProc | SysEnter | SysExit | Relocks | ForkFail | ForkTime | ForkAdopt | Fault

  /** The process of processor k. */
  function Me(k: Cpu): nat { if k.proc.Some? then k.proc.value else 0 }

  ghost predicate LockFree(cpus: seq<Cpu>, l: Lock) { forall d :: 0 <= d < |cpus| ==> l !in cpus[d].held }

  predicate At(k: Cpu, ps: seq<Proc>, pc: Pc) { k.pc == pc && Mine(k, ps) }

  predicate Forks(at: At) { at.Forked? || at.Timed? || at.Adopted? }

  ghost predicate Enabled(s: State, c: nat, a: Action)
  {
    && c < |s.cpus|
    && var k, ps := s.cpus[c], s.procs;
       match a
       case OnCpu(a) =>
         CpuEnabled(k, c, ps, a) && (Takes(a).Some? && !InitExits(k, s.init, a) ==> LockFree(s.cpus, Takes(a).value))
       case Pick => k.pc == Scan && k.scan < |ps| && ps[k.scan].state == RUNNABLE
       case ResumeProc => At(k, ps, Resume)
       case WakeAll => k.pc.Waking?
       case YieldGo => At(k, ps, Yielding)
       case SleepGo => k.pc.Sleeping? && Mine(k, ps)
       case ExitGo => At(k, ps, Exiting)
       case WaitGo => At(k, ps, Waiting)
       case ForkGo => At(k, ps, Forking)
       case StartGo => At(k, ps, Starting) && ps[Me(k)].at.Adopted? && ps[Me(k)].at.np < |ps|
       case KillGo => k.pc.Killing?
       case TickInc => k.pc == Run(Ticking)
       case ChargeProc => k.pc == Run(Charge) && k.held == {}
       case SysEnter => At(k, ps, Run(NoIrq)) && ps[Me(k)].at == User
       case SysExit => At(k, ps, Run(NoIrq)) && ps[Me(k)].at == Kernel && k.held == {}
       case Relocks => At(k, ps, Run(NoIrq)) && ps[Me(k)].at.Relock? && LockFree(s.cpus, ps[Me(k)].at.lk)
       case ForkFail =>
         At(k, ps, Run(NoIrq)) && (ps[Me(k)].at.Forked? || ps[Me(k)].at.Timed?) && ps[Me(k)].at.np < |ps|
             && k.held == {}
       case ForkTime => At(k, ps, Run(NoIrq)) && ps[Me(k)].at.Forked? && ps[Me(k)].at.np < |ps|
       case ForkAdopt => At(k, ps, Run(NoIrq)) && ps[Me(k)].at.Timed? && ps[Me(k)].at.np < |ps|
       case Fault => At(k, ps, Run(Device))
  }

  /** sched() with p as the process after its state was changed. */
  function Saved(k: Cpu, p: Proc): Proc { p.(intena := k.intena) }

  function Picked(ps: seq<Proc>, i: nat): seq<Proc>
    requires i < |ps|
  {
    ps[i := ps[i].(state := RUNNING)]
  }

  /** What happens after swtch to a process: sched's tail and its caller's, or forkret. */
  function Resumed(k: Cpu, p: Proc): (Cpu, Proc)
  {
    match p.frame
    case InYield => (k.(intena := p.intena, pc := Unlock(Device)), p)
    case InSleep => (k.(intena := p.intena, pc := Unlock(NoIrq)), p.(chan := NoChan))
    case InWait => (k.(intena := p.intena, pc := Waiting), p.(chan := NoChan))
    case InForkret => (k.(pc := Unlock(NoIrq)), p)
    case InExit => (k, p)
  }

  function Charged(p: Proc): Proc
  {
    if p.state == RUNNING then p.(rtime := p.rtime + 1)
    else if p.state == SLEEPING then p.(iotime := p.iotime + 1)
    else p
  }

  function Fresh(p: Proc, ticks: nat): Proc
  {
    p.(ctime := ticks, etime := 0, rtime := 0, iotime := 0, at := User, frame := InForkret)
  }

  function Dozing(k: Cpu, p: Proc): Proc
    requires k.pc.Sleeping?
  {
    Saved(k, FallAsleep(p, k.pc.chan, InSleep, Relock(k.pc.lk)))
  }

  /** fork by process me: its child np becomes p, itself is at `at`. */
  function ForkTable(ps: seq<Proc>, me: nat, np: nat, p: Proc, at: At): seq<Proc>
    requires me < |ps| && np < |ps|
  {
    ps[np := p][me := ps[me].(at := at)]
  }

  /** The state with processor c and the table replaced. */
  function Put(s: State, c: nat, k: Cpu, ps: seq<Proc>): State
    requires c < |s.cpus|
  {
    s.(cpus := s.cpus[c := k], procs := ps)
  }

  ghost function Next(s: State, c: nat, a: Action): State
    requires Enabled(s, c, a)
  {
    var k, ps, me := s.cpus[c], s.procs, Me(s.cpus[c]);
    match a
    case OnCpu(a) => Put(s, c, CpuNext(k, a), ps)
    case Pick => Put(s, c, k.(proc := Some(k.scan), pc := Resume), Picked(ps, k.scan))
    case ResumeProc => Put(s, c, Resumed(k, ps[me]).0, ps[me := Resumed(k, ps[me]).1])
    case WakeAll => Put(s, c, k.(pc := Unlock(k.pc.irq)), Woken(ps, k.pc.chan))
    case YieldGo => Put(s, c, k.(pc := Back), ps[me := Saved(k, ps[me].(state := RUNNABLE, frame := InYield))])
    case SleepGo => Put(s, c, Release(k, k.pc.lk).(pc := Back), ps[me := Dozing(k, ps[me])])
    case ExitGo =>
      var left := Abandoned(ps, me, s.init);
      Put(s, c, k.(pc := Back), left[me := Saved(k, Died(left[me], s.ticks))]).(died := s.died + {ps[me].pid})
    case WaitGo => Waits(s, c)
    case ForkGo =>
      var z := FirstUnused(ps, 0);
      if z < |ps| then
        Put(s, c, k.(pc := Unlock(NoIrq)),
            ForkTable(ps, me, z, Embryo(ps[z], s.nextpid), Forked(z))).(nextpid := s.nextpid + 1)
      else Put(s, c, k.(pc := Unlock(NoIrq)), ps)
    case StartGo =>
      var np := ps[me].at.np;
      Put(s, c, k.(pc := Unlock(NoIrq)), ForkTable(ps, me, np, ps[np].(state := RUNNABLE), Kernel))
    case KillGo =>
      var z := FirstPid(ps, k.pc.pid, 0);
      Put(s, c, k.(pc := Unlock(NoIrq)), if z < |ps| then ps[z := Kill1(ps[z])] else ps)
    case TickInc => Put(s, c, k.(pc := Run(Ticked)), ps).(ticks := s.ticks + 1)
    case ChargeProc =>
      if Mine(k, ps) then Put(s, c, k.(pc := Run(Timer)), ps[me := Charged(ps[me])]).(charges := s.charges + 1)
      else Put(s, c, k.(pc := Run(Timer)), ps)
    case SysEnter => Put(s, c, k, ps[me := ps[me].(at := Kernel)])
    case SysExit => Put(s, c, k, ps[me := ps[me].(at := User)])
    case Relocks => Put(s, c, Acquire(k, ps[me].at.lk), ps[me := ps[me].(at := Kernel)])
    case ForkFail =>
      var np := ps[me].at.np;
      Put(s, c, k, ForkTable(ps, me, np, ps[np].(state := UNUSED), Kernel))
    case ForkTime =>
      var np := ps[me].at.np;
      Put(s, c, k, ForkTable(ps, me, np, Fresh(ps[np], s.ticks), Timed(np)))
    case ForkAdopt =>
      var np := ps[me].at.np;
      Put(s, c, k, ForkTable(ps, me, np, ps[np].(parent := Some(me)), Adopted(np)))
    case Fault => Put(s, c, k, ps[me := ps[me].(killed := true)])
  }

  function Waits(s: State, c: nat): State
    requires c < |s.cpus| && Mine(s.cpus[c], s.procs)
  {
    var k, me, r := s.cpus[c], Me(s.cpus[c]), WaitScan(s.procs, Me(s.cpus[c]));
    match r.1
    case Reaped(pid, _, _) => Put(s, c, k.(pc := Unlock(NoIrq)), r.0).(reaped := s.reaped + {pid})
    case NoChild => Put(s, c, k.(pc := Unlock(NoIrq)), r.0)
    case Sleeps => Put(s, c, k.(pc := Back), r.0[me := Saved(k, r.0[me])])
  }

  /** The panics of acquire, release, popcli and sched, and exit's "init exiting" and "zombie exit". */
  ghost predicate Panics(s: State, c: nat, a: Action)
    requires Enabled(s, c, a)
  {
    var k, ps, me := s.cpus[c], s.procs, Me(s.cpus[c]);
    match a
    case OnCpu(a) => InitExits(k, s.init, a) || CpuPanics(k, a)
    case ResumeProc => ps[me].frame == InExit
    case YieldGo => SchedPanics(k, ps[me].(state := RUNNABLE))
    case SleepGo => ReleasePanics(k, k.pc.lk) || SchedPanics(Release(k, k.pc.lk), ps[me].(state := SLEEPING))
    case ExitGo => SchedPanics(k, Died(ps[me], s.ticks))
    case WaitGo => WaitScan(ps, me).1 == Sleeps && SchedPanics(k, ps[me].(state := SLEEPING))
    case Relocks => AcquirePanics(k, ps[me].at.lk)
    case _ => false
  }

  // ----- the invariant -----

  /** What one slot says about the slots it refers to: its parent, and the child it is forking. */
  ghost predicate ProcOk(ps: seq<Proc>, i: nat, init: nat)
    requires i < |ps|
  {
    var p := ps[i];
    && SelfOk(p, i)
    && (p.state == UNUSED ==> p.parent == None)
    && (if i == init then Live(p) && p.parent == None else Live(p) || p.state == ZOMBIE ==> p.parent.Some?)
    && (p.parent.Some? ==> ParentOk(ps, i, p.parent.value))
    && (Forks(p.at) ==> Live(p) && ChildOk(ps, i, p.at.np))
  }

  /** A sleeper's channel is its own slot just in wait; saved contexts go with where the thread is. */
  predicate SelfOk(p: Proc, i: nat)
  {
    && (p.state == SLEEPING ==> (p.frame == InSleep && !p.chan.Slot?) || (p.frame == InWait && p.chan == Slot(i)))
    && (p.state == SLEEPING || p.state == RUNNABLE ==> FrameOk(p))
    && (p.at.Relock? ==> p.at.lk != Ptable)
  }

  /** A parent is neither unused nor a zombie; it is not asleep in wait if the child is a zombie. */
  ghost predicate ParentOk(ps: seq<Proc>, i: nat, t: nat)
    requires i < |ps|
  {
    && t < |ps| && t != i && Live(ps[t])
    && (ps[i].state == ZOMBIE ==> !AsleepInWait(ps[t]))
    && (ps[i].state == EMBRYO ==> ps[t].at == Adopted(i))
  }

  ghost predicate ChildOk(ps: seq<Proc>, i: nat, np: nat)
    requires i < |ps|
  {
    && np < |ps| && np != i && ps[np].state == EMBRYO
    && ps[np].parent == (if ps[i].at.Adopted? then Some(i) else None)
    && (!ps[i].at.Forked? ==> ps[np].frame == InForkret && ps[np].at == User)
  }

  ghost predicate Procs(ps: seq<Proc>, init: nat)
  {
    && init < |ps|
    && (forall i {:trigger ProcOk(ps, i, init)} :: 0 <= i < |ps| ==> ProcOk(ps, i, init))
    && ForksApart(ps)
  }

  /** No two processes are forking the same child. */
  ghost predicate ForksApart(ps: seq<Proc>)
  {
    forall i, j :: 0 <= i < j < |ps| && Forks(ps[i].at) && Forks(ps[j].at) ==> ps[i].at.np != ps[j].at.np
  }

  ghost predicate OnCpuOf(cpus: seq<Cpu>, c: nat, i: nat) { c < |cpus| && cpus[c].proc == Some(i) }

  /** Each processor is where it says; no two hold one lock or run one process; what is RUNNING runs somewhere. */
  ghost predicate Cpus(cpus: seq<Cpu>, ps: seq<Proc>, init: nat)
  {
    && (forall c :: 0 <= c < |cpus| ==> CpuOk(cpus[c], c, ps, init))
    && (forall c, d :: 0 <= c < d < |cpus| ==>
          cpus[c].held !! cpus[d].held && (cpus[c].proc.Some? ==> cpus[c].proc != cpus[d].proc))
    && (forall i {:trigger ps[i]} :: 0 <= i < |ps| && ps[i].state == RUNNING ==> exists c :: OnCpuOf(cpus, c, i))
  }

  /** The same thread position, as far as the processor that runs it depends on it. */
  predicate SameThread(p: Proc, q: Proc)
  {
    p.state == q.state && p.at == q.at && p.frame == q.frame && p.intena == q.intena
  }

  /** ps differs from the table only where no other processor looks: processes that run elsewhere stay; without
      ptable.lock, so do all but unused and embryo ones. */
  ghost predicate OthersSame(s: State, c: nat, ps: seq<Proc>)
    requires c < |s.cpus|
  {
    && |ps| == |s.procs|
    && (forall j :: 0 <= j < |ps| && s.cpus[c].proc != Some(j) && s.procs[j].state !in {UNUSED, EMBRYO} ==>
          (s.procs[j].state == RUNNING || Ptable !in s.cpus[c].held ==> SameThread(s.procs[j], ps[j])))
  }

  /** What starts running runs here. */
  ghost predicate RunsHere(s: State, c: nat, k: Cpu, ps: seq<Proc>)
    requires c < |s.cpus| && |ps| == |s.procs|
  {
    && (k.proc == s.cpus[c].proc || k.proc == None
        || (s.cpus[c].proc == None && Ptable in s.cpus[c].held && k.proc.value < |ps|
            && s.procs[k.proc.value].state == RUNNABLE))
    && (forall j :: 0 <= j < |ps| && ps[j].state == RUNNING ==>
          k.proc == Some(j) || (s.procs[j].state == RUNNING && s.cpus[c].proc != Some(j)))
  }

  /** The processors' invariant stays when processor c takes a step that the others cannot tell. */
  lemma {:induction false} CpusKeep(s: State, c: nat, k: Cpu, ps: seq<Proc>)
    requires Cpus(s.cpus, s.procs, s.init) && c < |s.cpus| && OthersSame(s, c, ps) && RunsHere(s, c, k, ps)
    requires CpuOk(k, c, ps, s.init)
    requires forall l :: l in k.held && l !in s.cpus[c].held ==> LockFree(s.cpus, l)
    ensures Cpus(s.cpus[c := k], ps, s.init)
  {
    var s' := Put(s, c, k, ps);
    forall d | 0 <= d < |s.cpus| && d != c
      ensures CpuOk(s.cpus[d], d, ps, s.init) && s.cpus[d].held !! k.held && (k.proc.Some? ==> s.cpus[d].proc != k.proc)
    {
      assert CpuOk(s.cpus[d], d, s.procs, s.init);
      assert s.cpus[d].held !! s.cpus[c].held;
      assert s.cpus[d].proc.Some? ==> s.cpus[d].proc != s.cpus[c].proc;
    }
    forall i | 0 <= i < |ps| && ps[i].state == RUNNING ensures exists d :: OnCpuOf(s'.cpus, d, i) {
      if k.proc == Some(i) {
        assert OnCpuOf(s'.cpus, c, i);
      } else {
        var d :| OnCpuOf(s.cpus, d, i);
        assert OnCpuOf(s'.cpus, d, i);
      }
    }
  }

  lemma {:induction false} ProcAt(ps: seq<Proc>, init: nat, i: nat)
    requires Procs(ps, init) && (i < |ps| || i == init)
    ensures init < |ps| && ProcOk(ps, i, init)
  {}

  lemma {:induction false} CpuOf(s: State, c: nat)
    requires Cpus(s.cpus, s.procs, s.init) && c < |s.cpus|
    ensures CpuOk(s.cpus[c], c, s.procs, s.init)
  {}

  // ----- pids and times -----

  ghost predicate PidOk(p: Proc, nextpid: nat, died: set<nat>, reaped: set<nat>)
  {
    p.state != UNUSED ==> 1 <= p.pid < nextpid && (p.state == ZOMBIE <==> p.pid in died) && p.pid !in reaped
  }

  ghost predicate ZombieWith(ps: seq<Proc>, i: nat, pid: nat) { i < |ps| && ps[i].state == ZOMBIE && ps[i].pid == pid }

  /** Pids are distinct; the pids that exited and were not yet returned by wait are those of the zombies. */
  ghost predicate Pids(ps: seq<Proc>, nextpid: nat, died: set<nat>, reaped: set<nat>)
  {
    && nextpid >= 1
    && (forall i :: 0 <= i < |ps| ==> PidOk(ps[i], nextpid, died, reaped))
    && (forall i, j :: 0 <= i < j < |ps| && ps[i].state != UNUSED && ps[j].state != UNUSED ==> ps[i].pid != ps[j].pid)
    && (forall x :: x in reaped ==> x in died)
    && (forall x :: x in died ==> x < nextpid && (x in reaped || exists i :: ZombieWith(ps, i, x)))
  }

  /** Between ticks++ and the charge, processor 0 owes its process one tick. */
  function Owed(s: State, i: nat): nat
  {
    if |s.cpus| > 0 && s.cpus[0].proc == Some(i) && Owing(s.cpus[0].pc) then 1 else 0
  }

  predicate Owing(pc: Pc) { (pc.Run? || pc.Waking? || pc.Unlock?) && pc.irq in {Ticked, Charge} }

  predicate TimeOk(p: Proc, owed: nat, ticks: nat)
  {
    && (Live(p) ==> p.iotime == 0 && p.ctime + p.rtime + p.iotime + owed <= ticks)
    && (p.state == ZOMBIE ==> p.iotime == 0 && p.ctime + p.rtime + p.iotime <= p.etime <= ticks)
  }

  predicate FreshOk(p: Proc, ticks: nat) { p.rtime == 0 && p.iotime == 0 && p.ctime <= ticks }

  ghost predicate Times(s: State)
  {
    && (forall i {:trigger s.procs[i]} :: 0 <= i < |s.procs| ==> TimeOk(s.procs[i], Owed(s, i), s.ticks))
    && (forall i {:trigger s.procs[i]} :: 0 <= i < |s.procs| && (s.procs[i].at.Timed? || s.procs[i].at.Adopted?) ==>
          s.procs[i].at.np < |s.procs| && FreshOk(s.procs[s.procs[i].at.np], s.ticks))
  }

  /** No more charges than ticks, one of which may still be owed. */
  predicate Tally(s: State)
  {
    s.charges + (if |s.cpus| > 0 && Owing(s.cpus[0].pc) then 1 else 0) <= s.ticks
  }

  ghost predicate Inv(s: State)
  {
    && Procs(s.procs, s.init) && Cpus(s.cpus, s.procs, s.init) && Pids(s.procs, s.nextpid, s.died, s.reaped)
    && Times(s) && Tally(s)
  }

  // ----- changes that concern one process alone -----

  /** q is p after a change that its parent, its children and the child it forks do not notice. */
  predicate Gentle(p: Proc, q: Proc)
  {
    && q.parent == p.parent && q.pid == p.pid
    && Live(q) == Live(p) && (Live(p) || (q.state == p.state && q.frame == p.frame && q.at == p.at))
    && (q.at == p.at || (!Forks(q.at) && !Forks(p.at)))
    && (AsleepInWait(q) ==> AsleepInWait(p))
  }

  predicate SameTimes(p: Proc, q: Proc)
  {
    q.ctime == p.ctime && q.etime == p.etime && q.rtime == p.rtime && q.iotime == p.iotime
  }

  ghost predicate AllGentle(ps: seq<Proc>, ps': seq<Proc>)
  {
    |ps'| == |ps| && forall i :: 0 <= i < |ps| ==> Gentle(ps[i], ps'[i]) && SelfOk(ps'[i], i)
  }

  lemma {:induction false} GentleProcs(ps: seq<Proc>, ps': seq<Proc>, init: nat)
    requires Procs(ps, init) && AllGentle(ps, ps')
    ensures Procs(ps', init)
  {
    forall i | 0 <= i < |ps'| ensures ProcOk(ps', i, init) {
      assert ProcOk(ps, i, init);
    }
  }

  /** The same pids, and the same slots unused and zombie. */
  ghost predicate SameRoll(ps: seq<Proc>, ps': seq<Proc>)
  {
    && |ps'| == |ps|
    && forall i :: 0 <= i < |ps| ==> ps'[i].pid == ps[i].pid && (ps'[i].state == UNUSED <==> ps[i].state == UNUSED)
                                     && (ps'[i].state == ZOMBIE <==> ps[i].state == ZOMBIE)
  }

  lemma {:induction false} PidsKeep(ps: seq<Proc>, ps': seq<Proc>, nextpid: nat, died: set<nat>, reaped: set<nat>)
    requires Pids(ps, nextpid, died, reaped) && SameRoll(ps, ps')
    ensures Pids(ps', nextpid, died, reaped)
  {
    forall x | x in died && x !in reaped ensures exists i :: ZombieWith(ps', i, x) {
      var i :| ZombieWith(ps, i, x);
      assert ZombieWith(ps', i, x);
    }
  }

  lemma {:induction false} GentleTimes(s: State, s': State)
    requires Times(s) && AllGentle(s.procs, s'.procs) && s'.ticks == s.ticks
    requires forall i :: 0 <= i < |s.procs| ==> SameTimes(s.procs[i], s'.procs[i])
    requires forall i :: Owed(s', i) <= Owed(s, i)
    ensures Times(s')
  {}

  /** A step of processor c that leaves it with k, the same process owed what it was, and the table gently changed. */
  lemma {:induction false} GentleStep(s: State, c: nat, k: Cpu, ps: seq<Proc>)
    requires Inv(s) && c < |s.cpus| && AllGentle(s.procs, ps)
    requires forall i :: 0 <= i < |ps| ==> SameTimes(s.procs[i], ps[i])
    requires OthersSame(s, c, ps) && RunsHere(s, c, k, ps) && CpuOk(k, c, ps, s.init)
    requires forall l :: l in k.held && l !in s.cpus[c].held ==> LockFree(s.cpus, l)
    requires c == 0 && Owing(k.pc) ==> Owing(s.cpus[c].pc) && k.proc == s.cpus[c].proc
    ensures Inv(Put(s, c, k, ps))
  {
    hide Procs;
    hide Pids;
    hide Cpus;
    hide CpuOk;
    GentleProcs(s.procs, ps, s.init);
    PidsKeep(s.procs, ps, s.nextpid, s.died, s.reaped);
    CpusKeep(s, c, k, ps);
    GentleTimes(s, Put(s, c, k, ps));
  }

  lemma {:induction false} SameGentle(ps: seq<Proc>, init: nat)
    requires Procs(ps, init)
    ensures AllGentle(ps, ps)
  {
    forall i | 0 <= i < |ps| ensures SelfOk(ps[i], i) { assert ProcOk(ps, i, init); }
  }

  lemma {:induction false} OneGentle(ps: seq<Proc>, init: nat, i: nat, p: Proc)
    requires Procs(ps, init) && i < |ps| && Gentle(ps[i], p) && SelfOk(p, i)
    ensures AllGentle(ps, ps[i := p])
  {
    SameGentle(ps, init);
  }

  // ----- the processor's own steps -----

  lemma {:induction false} OnCpuInv(s: State, c: nat, a: CpuAction)
    requires Inv(s) && Enabled(s, c, OnCpu(a)) && !InitExits(s.cpus[c], s.init, a)
    ensures Inv(Next(s, c, OnCpu(a))) && !Panics(s, c, OnCpu(a))
  {
    hide CpuNext;
    hide CpuEnabled;
    hide CpuOk;
    hide Procs;
    hide Pids;
    hide Times;
    hide CpuPanics;
    var k := s.cpus[c];
    CpuKeeps(k, c, s.procs, s.init, a);
    OwesSame(k, c, s.procs, a);
    if a.Drop? { DropOk(k, c, s.procs, s.init, a); }
    SameGentle(s.procs, s.init);
    GentleStep(s, c, CpuNext(k, a), s.procs);
  }

  lemma {:induction false} OwesSame(k: Cpu, c: nat, ps: seq<Proc>, a: CpuAction)
    requires CpuEnabled(k, c, ps, a)
    ensures CpuNext(k, a).pc == NextPc(k, a) && Owing(NextPc(k, a)) == Owing(k.pc) && (a.Drop? ==> !Owing(k.pc))
  {}

  lemma {:induction false} DropOk(k: Cpu, c: nat, ps: seq<Proc>, init: nat, a: CpuAction)
    requires CpuOk(k, c, ps, init) && CpuEnabled(k, c, ps, a) && a.Drop?
    ensures Mine(k, ps) && ps[k.proc.value].state != RUNNING
  {}

  // ----- scheduler, yield, sleep, wakeup, kill -----

  lemma {:induction false} PickInv(s: State, c: nat)
    requires Inv(s) && Enabled(s, c, Pick)
    ensures Inv(Next(s, c, Pick))
  {
    hide Times;
    hide Pids;
    hide Cpus;
    CpuOf(s, c);
    var k := s.cpus[c];
    var p := s.procs[k.scan];
    assert ProcOk(s.procs, k.scan, s.init);
    OneGentle(s.procs, s.init, k.scan, p.(state := RUNNING));
    GentleStep(s, c, k.(proc := Some(k.scan), pc := Resume), Picked(s.procs, k.scan));
  }

  lemma {:induction false} ResumedOk(s: State, c: nat)
    requires Inv(s) && Enabled(s, c, ResumeProc)
    ensures Me(s.cpus[c]) < |s.procs|
    ensures var me := Me(s.cpus[c]); var r := Resumed(s.cpus[c], s.procs[me]);
            Gentle(s.procs[me], r.1) && SelfOk(r.1, me) && CpuOk(r.0, c, s.procs[me := r.1], s.init)
    ensures !Panics(s, c, ResumeProc)
  {
    hide Times;
    hide Pids;
    hide Procs;
    hide Cpus;
    CpuOf(s, c);
    ProcAt(s.procs, s.init, Me(s.cpus[c]));
  }

  lemma {:induction false} ResumeInv(s: State, c: nat)
    requires Inv(s) && Enabled(s, c, ResumeProc)
    ensures Inv(Next(s, c, ResumeProc)) && !Panics(s, c, ResumeProc)
  {
    hide Times;
    hide Pids;
    hide Procs;
    hide Cpus;
    hide Gentle;
    hide CpuOk;
    CpuOf(s, c);
    var k, me := s.cpus[c], Me(s.cpus[c]);
    ResumedOk(s, c);
    var r := Resumed(k, s.procs[me]);
    OneGentle(s.procs, s.init, me, r.1);
    GentleStep(s, c, r.0, s.procs[me := r.1]);
  }

  lemma {:induction false} YieldInv(s: State, c: nat)
    requires Inv(s) && Enabled(s, c, YieldGo)
    ensures Inv(Next(s, c, YieldGo)) && !Panics(s, c, YieldGo)
  {
    hide Times;
    hide Pids;
    hide Cpus;
    CpuOf(s, c);
    var k, me := s.cpus[c], Me(s.cpus[c]);
    assert ProcOk(s.procs, me, s.init);
    var p := Saved(k, s.procs[me].(state := RUNNABLE, frame := InYield));
    OneGentle(s.procs, s.init, me, p);
    GentleStep(s, c, k.(pc := Back), s.procs[me := p]);
  }

  lemma {:induction false} SleepInv(s: State, c: nat)
    requires Inv(s) && Enabled(s, c, SleepGo)
    ensures Inv(Next(s, c, SleepGo)) && !Panics(s, c, SleepGo)
  {
    hide Times;
    hide Pids;
    hide Cpus;
    CpuOf(s, c);
    var k, me := s.cpus[c], Me(s.cpus[c]);
    assert ProcOk(s.procs, me, s.init);
    ReleaseOk(k, k.pc.lk);
    assert k.held - {k.pc.lk} == {Ptable};
    var p := Dozing(k, s.procs[me]);
    OneGentle(s.procs, s.init, me, p);
    GentleStep(s, c, Release(k, k.pc.lk).(pc := Back), s.procs[me := p]);
  }

  lemma {:induction false} WakeInv(s: State, c: nat)
    requires Inv(s) && Enabled(s, c, WakeAll)
    ensures Inv(Next(s, c, WakeAll))
  {
    hide Times;
    hide Pids;
    hide Cpus;
    CpuOf(s, c);
    var k := s.cpus[c];
    var ps := Woken(s.procs, k.pc.chan);
    SameGentle(s.procs, s.init);
    GentleStep(s, c, k.(pc := Unlock(k.pc.irq)), ps);
  }

  lemma {:induction false} KillGentle(ps: seq<Proc>, init: nat, pid: nat)
    requires Procs(ps, init)
    ensures var z := FirstPid(ps, pid, 0);
            AllGentle(ps, if z < |ps| then ps[z := Kill1(ps[z])] else ps)
  {
    SameGentle(ps, init);
  }

  lemma {:induction false} KillInv(s: State, c: nat)
    requires Inv(s) && Enabled(s, c, KillGo)
    ensures Inv(Next(s, c, KillGo))
  {
    hide Times;
    hide Pids;
    hide Procs;
    hide AllGentle;
    hide SelfOk;
    hide Cpus;
    CpuOf(s, c);
    var k := s.cpus[c];
    var z := FirstPid(s.procs, k.pc.pid, 0);
    KillGentle(s.procs, s.init, k.pc.pid);
    GentleStep(s, c, k.(pc := Unlock(NoIrq)), if z < |s.procs| then s.procs[z := Kill1(s.procs[z])] else s.procs);
  }

  /** System call entry and exit, sleep's reacquiring of its lock, a faulting process: only `at` and `killed` change. */
  lemma {:induction false} OwnInv(s: State, c: nat, a: Action)
    requires Inv(s) && Enabled(s, c, a) && (a.SysEnter? || a.SysExit? || a.Fault?)
    ensures Inv(Next(s, c, a))
  {
    hide Times;
    hide Pids;
    hide Cpus;
    CpuOf(s, c);
    var k, me := s.cpus[c], Me(s.cpus[c]);
    assert ProcOk(s.procs, me, s.init);
    var p := Next(s, c, a).procs[me];
    OneGentle(s.procs, s.init, me, p);
    GentleStep(s, c, k, s.procs[me := p]);
  }

  lemma {:induction false} RelockInv(s: State, c: nat)
    requires Inv(s) && Enabled(s, c, Relocks)
    ensures Inv(Next(s, c, Relocks)) && !Panics(s, c, Relocks)
  {
    hide Times;
    hide Pids;
    hide Cpus;
    CpuOf(s, c);
    var k, me := s.cpus[c], Me(s.cpus[c]);
    assert ProcOk(s.procs, me, s.init);
    AcquireOk(k, s.procs[me].at.lk);
    var p := s.procs[me].(at := Kernel);
    OneGentle(s.procs, s.init, me, p);
    GentleStep(s, c, Acquire(k, s.procs[me].at.lk), s.procs[me := p]);
  }

  // ----- the timer interrupt -----

  lemma {:induction false} TickInv(s: State, c: nat)
    requires Inv(s) && Enabled(s, c, TickInc)
    ensures Inv(Next(s, c, TickInc))
  {
    hide Pids;
    hide Procs;
    var k := s.cpus[c];
    CpusKeep(s, c, k.(pc := Run(Ticked)), s.procs);
    var s' := Next(s, c, TickInc);
    assert c == 0;
    assert Cpus(s'.cpus, s'.procs, s'.init);
    forall i | 0 <= i < |s.procs| ensures TimeOk(s'.procs[i], Owed(s', i), s'.ticks) {
      assert TimeOk(s.procs[i], Owed(s, i), s.ticks);
    }
  }

  /** The charge goes to a running process: the SLEEPING branch is not taken. */
  lemma {:induction false} ChargeRuns(s: State, c: nat)
    requires Inv(s) && Enabled(s, c, ChargeProc) && Mine(s.cpus[c], s.procs)
    ensures c == 0 && s.procs[Me(s.cpus[c])].state == RUNNING && Owed(s, Me(s.cpus[c])) == 1
  {}

  lemma {:induction false} ChargeInv(s: State, c: nat)
    requires Inv(s) && Enabled(s, c, ChargeProc)
    ensures Inv(Next(s, c, ChargeProc))
  {
    hide Pids;
    hide Procs;
    hide Times;
    hide Tally;
    hide Cpus;
    var s' := Next(s, c, ChargeProc);
    ChargeTable(s, c);
    GentleProcs(s.procs, s'.procs, s.init);
    PidsKeep(s.procs, s'.procs, s.nextpid, s.died, s.reaped);
    CpusKeep(s, c, s'.cpus[c], s'.procs);
    ChargeTimes(s, c, s');
  }

  lemma {:induction false} ChargeTimes(s: State, c: nat, s': State)
    requires Inv(s) && Enabled(s, c, ChargeProc) && s' == Next(s, c, ChargeProc)
    ensures Times(s') && Tally(s')
  {
    hide Pids;
    hide Procs;
    hide Cpus;
    if Mine(s.cpus[c], s.procs) { ChargeRuns(s, c); }
    forall i | 0 <= i < |s.procs| ensures TimeOk(s'.procs[i], Owed(s', i), s'.ticks) {
      assert TimeOk(s.procs[i], Owed(s, i), s.ticks);
    }
    forall i | 0 <= i < |s.procs| && (s'.procs[i].at.Timed? || s'.procs[i].at.Adopted?)
      ensures s'.procs[i].at.np < |s.procs| && FreshOk(s'.procs[s'.procs[i].at.np], s.ticks)
    {
      assert s'.procs[i].at == s.procs[i].at;
      ForkedEmbryo(s.procs, s.init, i);
    }
  }

  lemma {:induction false} ForkedEmbryo(ps: seq<Proc>, init: nat, i: nat)
    requires Procs(ps, init) && i < |ps| && Forks(ps[i].at)
    ensures Live(ps[i]) && ps[i].at.np < |ps| && ps[i].at.np != i && ps[ps[i].at.np].state == EMBRYO
    ensures ps[ps[i].at.np].parent == if ps[i].at.Adopted? then Some(i) else None
  {
    assert ProcOk(ps, i, init);
  }

  lemma {:induction false} ChargeTable(s: State, c: nat)
    requires Inv(s) && Enabled(s, c, ChargeProc)
    ensures var s' := Next(s, c, ChargeProc);
            AllGentle(s.procs, s'.procs) && OthersSame(s, c, s'.procs) && RunsHere(s, c, s'.cpus[c], s'.procs)
                && CpuOk(s'.cpus[c], c, s'.procs, s.init)
  {
    hide Times;
    hide Pids;
    hide Cpus;
    CpuOf(s, c);
    SameGentle(s.procs, s.init);
  }
}
