/** All runs (proc.c, spinlock.c). */
module ProcessRuns {
  // fork, exit and wait keep the invariant, and so does every run.

  import opened Options
  import opened ProcTable
  import opened Sched
  import opened Processes

  // ----- fork -----

  /** fork's four changes to the table: a new embryo, its times, its parent, its start; or giving it up. */
  predicate ForkChange(ps: seq<Proc>, me: nat, np: nat, p: Proc, at: At)
  {
    && me < |ps| && np < |ps| && np != me && ps[me].state == RUNNING
    && match at
       case Forked(n) => n == np && ps[me].at == Kernel && ps[np].state == UNUSED && p == Embryo(ps[np], p.pid)
       case Timed(n) => n == np && ps[me].at == Forked(np) && p == Fresh(ps[np], p.ctime)
       case Adopted(n) => n == np && ps[me].at == Timed(np) && p == ps[np].(parent := Some(me))
       case _ =>
         && at == Kernel
         && (|| (ps[me].at == Adopted(np) && p == ps[np].(state := RUNNABLE))
             || (ps[me].at in {At.Forked(np), Timed(np)} && p == ps[np].(state := UNUSED)))
  }

  lemma {:induction false} ForkApart(ps: seq<Proc>, init: nat, me: nat, np: nat, p: Proc, at: At)
    requires Procs(ps, init) && ForkChange(ps, me, np, p, at)
    ensures ForksApart(ForkTable(ps, me, np, p, at))
  {
    var ps' := ForkTable(ps, me, np, p, at);
    assert ProcOk(ps, np, init);
    forall i, j | 0 <= i < j < |ps| && Forks(ps'[i].at) && Forks(ps'[j].at) ensures ps'[i].at.np != ps'[j].at.np {
      if i == me { assert ProcOk(ps, j, init); }
      if j == me { assert ProcOk(ps, i, init); }
    }
  }

  lemma {:induction false} ForkOther(ps: seq<Proc>, init: nat, me: nat, np: nat, p: Proc, at: At, i: nat)
    requires Procs(ps, init) && ForkChange(ps, me, np, p, at) && i < |ps| && i != me && i != np
    ensures ProcOk(ForkTable(ps, me, np, p, at), i, init)
  {
    hide ParentOk;
    hide ChildOk;
    hide ForksApart;
    assert ProcOk(ps, i, init);
    if ps[i].parent.Some? { ForkParent(ps, init, me, np, p, at, i, ps[i].parent.value); }
    if Forks(ps[i].at) { ForkChild(ps, init, me, np, p, at, i); }
  }

  lemma {:induction false} ForkParent(ps: seq<Proc>, init: nat, me: nat, np: nat, p: Proc, at: At, i: nat, t: nat)
    requires Procs(ps, init) && ForkChange(ps, me, np, p, at) && i < |ps| && i != me && i != np && ParentOk(ps, i, t)
    ensures ParentOk(ForkTable(ps, me, np, p, at), i, t)
  {
    hide ChildOk;
    hide ForksApart;
    assert ProcOk(ps, me, init) && ProcOk(ps, np, init);
    if Forks(ps[me].at) { ForkedEmbryo(ps, init, me); }
  }

  lemma {:induction false} ForkChild(ps: seq<Proc>, init: nat, me: nat, np: nat, p: Proc, at: At, i: nat)
    requires Procs(ps, init) && ForkChange(ps, me, np, p, at) && i < |ps| && i != me && i != np && Forks(ps[i].at)
    ensures ChildOk(ForkTable(ps, me, np, p, at), i, ps[i].at.np)
  {
    hide ParentOk;
    ForkedEmbryo(ps, init, i);
    assert ProcOk(ps, i, init);
    if Forks(ps[me].at) { ForkedEmbryo(ps, init, me); }
    assert Forks(ps[me].at) ==> ps[me].at.np != ps[i].at.np;
  }

  lemma {:induction false} ForkProcs(ps: seq<Proc>, init: nat, me: nat, np: nat, p: Proc, at: At)
    requires Procs(ps, init) && ForkChange(ps, me, np, p, at)
    ensures Procs(ForkTable(ps, me, np, p, at), init)
  {
    hide ForksApart;
    var ps' := ForkTable(ps, me, np, p, at);
    ForkApart(ps, init, me, np, p, at);
    assert ProcOk(ps, me, init) && ProcOk(ps, np, init);
    forall i | 0 <= i < |ps| ensures ProcOk(ps', i, init) {
      if i != me && i != np { ForkOther(ps, init, me, np, p, at, i); }
    }
  }

  /** Processor 0 owes only to a running process. */
  lemma {:induction false} OwedRuns(s: State, i: nat)
    requires Cpus(s.cpus, s.procs, s.init) && i < |s.procs| && s.procs[i].state != RUNNING
    ensures Owed(s, i) == 0
  {}

  lemma {:induction false} ForkFresh(s: State, s': State, me: nat, np: nat, p: Proc, at: At, i: nat)
    requires Procs(s.procs, s.init) && Times(s) && ForkChange(s.procs, me, np, p, at)
    requires s'.procs == ForkTable(s.procs, me, np, p, at) && s'.ticks == s.ticks && (at.Timed? ==> p.ctime == s.ticks)
    requires i < |s.procs| && (s'.procs[i].at.Timed? || s'.procs[i].at.Adopted?)
    ensures s'.procs[i].at.np < |s.procs| && FreshOk(s'.procs[s'.procs[i].at.np], s.ticks)
  {
    hide Procs;
    if i == me {
    } else if i == np {
      if Forks(s.procs[me].at) { ForkedEmbryo(s.procs, s.init, me); }
      if Forks(s.procs[np].at) { ForkedEmbryo(s.procs, s.init, np); }
      assert false;
    } else {
      ForkedEmbryo(s.procs, s.init, i);
      ForkOther(s.procs, s.init, me, np, p, at, i);
    }
  }

  lemma {:induction false} ForkTimes(s: State, s': State, me: nat, np: nat, p: Proc, at: At)
    requires Inv(s) && ForkChange(s.procs, me, np, p, at) && s'.procs == ForkTable(s.procs, me, np, p, at)
    requires s'.ticks == s.ticks && (forall i :: Owed(s', i) == Owed(s, i)) && (at.Timed? ==> p.ctime == s.ticks)
    ensures Times(s')
  {
    hide Cpus;
    hide Pids;
    hide Procs;
    if Forks(s.procs[me].at) { ForkedEmbryo(s.procs, s.init, me); }
    OwedRuns(s, np);
    forall i | 0 <= i < |s.procs| ensures TimeOk(s'.procs[i], Owed(s', i), s'.ticks) {
      assert TimeOk(s.procs[i], Owed(s, i), s.ticks);
    }
    forall i | 0 <= i < |s.procs| && (s'.procs[i].at.Timed? || s'.procs[i].at.Adopted?)
      ensures s'.procs[i].at.np < |s.procs| && FreshOk(s'.procs[s'.procs[i].at.np], s.ticks)
    {
      ForkFresh(s, s', me, np, p, at, i);
    }
  }

  /** A new pid is one that no process and no zombie had. */
  lemma {:induction false} NewPid(ps: seq<Proc>, ps': seq<Proc>, z: nat, nextpid: nat, died: set<nat>, reaped: set<nat>)
    requires Pids(ps, nextpid, died, reaped) && z < |ps| == |ps'| && ps[z].state == UNUSED
    requires ps'[z].state == EMBRYO && ps'[z].pid == nextpid
    requires forall i :: 0 <= i < |ps| && i != z ==> ps'[i].pid == ps[i].pid && ps'[i].state == ps[i].state
    ensures Pids(ps', nextpid + 1, died, reaped)
  {
    forall x | x in died && x !in reaped ensures exists i :: ZombieWith(ps', i, x) {
      var i :| ZombieWith(ps, i, x);
      assert ZombieWith(ps', i, x);
    }
  }

  /** An embryo given up. */
  lemma {:induction false} GivenUp(ps: seq<Proc>, ps': seq<Proc>, z: nat, nextpid: nat, died: set<nat>,
                                   reaped: set<nat>)
    requires Pids(ps, nextpid, died, reaped) && z < |ps| == |ps'| && ps[z].state == EMBRYO && ps'[z].state == UNUSED
    requires forall i :: 0 <= i < |ps| && i != z ==> ps'[i].pid == ps[i].pid && ps'[i].state == ps[i].state
    ensures Pids(ps', nextpid, died, reaped)
  {
    forall x | x in died && x !in reaped ensures exists i :: ZombieWith(ps', i, x) {
      var i :| ZombieWith(ps, i, x);
      assert ZombieWith(ps', i, x);
    }
  }

  /** The processors' view of fork's changes. */
  lemma {:induction false} ForkCpus(s: State, c: nat, k: Cpu, np: nat, p: Proc, at: At)
    requires Cpus(s.cpus, s.procs, s.init) && c < |s.cpus| && Mine(s.cpus[c], s.procs)
    requires ForkChange(s.procs, Me(s.cpus[c]), np, p, at)
    requires s.procs[np].state in {UNUSED, EMBRYO} && CpuOk(k, c, ForkTable(s.procs, Me(s.cpus[c]), np, p, at), s.init)
    requires k.held <= s.cpus[c].held && k.proc == s.cpus[c].proc
    ensures Cpus(s.cpus[c := k], ForkTable(s.procs, Me(s.cpus[c]), np, p, at), s.init)
  {
    hide CpuOk;
    hide Cpus;
    CpusKeep(s, c, k, ForkTable(s.procs, Me(s.cpus[c]), np, p, at));
  }

  lemma {:induction false} ForkFound(s: State, c: nat, z: nat, p: Proc)
    requires Inv(s) && Enabled(s, c, ForkGo) && z < |s.procs| && s.procs[z].state == UNUSED
    requires p == Embryo(s.procs[z], s.nextpid)
    ensures Inv(Put(s, c, s.cpus[c].(pc := Unlock(NoIrq)),
            ForkTable(s.procs, Me(s.cpus[c]), z, p, Forked(z))).(nextpid := s.nextpid + 1))
  {
    hide Procs;
    hide Pids;
    hide Times;
    hide Cpus;
    CpuOf(s, c);
    var k', me := s.cpus[c].(pc := Unlock(NoIrq)), Me(s.cpus[c]);
    var ps := ForkTable(s.procs, me, z, p, Forked(z));
    ForkProcs(s.procs, s.init, me, z, p, Forked(z));
    ForkTimes(s, Put(s, c, k', ps).(nextpid := s.nextpid + 1), me, z, p, Forked(z));
    NewPid(s.procs, ps, z, s.nextpid, s.died, s.reaped);
    ForkCpus(s, c, k', z, p, Forked(z));
  }

  lemma {:induction false} ForkGoInv(s: State, c: nat)
    requires Inv(s) && Enabled(s, c, ForkGo)
    ensures Inv(Next(s, c, ForkGo))
  {
    hide Inv;
    var z := FirstUnused(s.procs, 0);
    if z < |s.procs| {
      ForkFound(s, c, z, Embryo(s.procs[z], s.nextpid));
    } else {
      ScanOnlyInv(s, c);
    }
  }

  /** A scan that changes nothing. */
  lemma {:induction false} ScanOnlyInv(s: State, c: nat)
    requires Inv(s) && (Enabled(s, c, ForkGo) || Enabled(s, c, WaitGo))
    ensures Inv(Put(s, c, s.cpus[c].(pc := Unlock(NoIrq)), s.procs))
  {
    hide Procs;
    hide Pids;
    hide Times;
    hide Cpus;
    CpuOf(s, c);
    SameGentle(s.procs, s.init);
    GentleStep(s, c, s.cpus[c].(pc := Unlock(NoIrq)), s.procs);
  }

  lemma {:induction false} ForkNextInv(s: State, c: nat, a: Action)
    requires Inv(s) && Enabled(s, c, a) && (a.ForkTime? || a.ForkAdopt? || a.ForkFail?)
    ensures Inv(Next(s, c, a))
  {
    hide Procs;
    hide Pids;
    hide Times;
    hide Cpus;
    CpuOf(s, c);
    var k, me, s' := s.cpus[c], Me(s.cpus[c]), Next(s, c, a);
    var np := s.procs[me].at.np;
    ForkedEmbryo(s.procs, s.init, me);
    var p, at := s'.procs[np], s'.procs[me].at;
    ForkProcs(s.procs, s.init, me, np, p, at);
    ForkTimes(s, s', me, np, p, at);
    if a.ForkFail? {
      GivenUp(s.procs, s'.procs, np, s.nextpid, s.died, s.reaped);
    } else {
      PidsKeep(s.procs, s'.procs, s.nextpid, s.died, s.reaped);
    }
    ForkCpus(s, c, k, np, p, at);
  }

  lemma {:induction false} StartInv(s: State, c: nat)
    requires Inv(s) && Enabled(s, c, StartGo)
    ensures Inv(Next(s, c, StartGo))
  {
    hide Procs;
    hide Pids;
    hide Times;
    hide Cpus;
    CpuOf(s, c);
    var k, me, s' := s.cpus[c], Me(s.cpus[c]), Next(s, c, StartGo);
    var np := s.procs[me].at.np;
    ForkedEmbryo(s.procs, s.init, me);
    var p := s.procs[np].(state := RUNNABLE);
    ForkProcs(s.procs, s.init, me, np, p, Kernel);
    ForkTimes(s, s', me, np, p, Kernel);
    PidsKeep(s.procs, s'.procs, s.nextpid, s.died, s.reaped);
    ForkCpus(s, c, k.(pc := Unlock(NoIrq)), np, p, Kernel);
  }

  // ----- exit -----

  /** The table once exit has woken whom it must wake, before the children change parent. */
  ghost function Roused(ps: seq<Proc>, me: nat, init: nat): (r: seq<Proc>)
    requires me < |ps|
    ensures |r| == |ps|
  {
    var ps1 := Woken(ps, ParentChan(ps[me]));
    if ZombieChildBelow(ps, me, |ps|) then Woken(ps1, Slot(init)) else ps1
  }

  lemma {:induction false} AbandonedIs(ps: seq<Proc>, me: nat, init: nat)
    requires me < |ps|
    ensures Abandoned(ps, me, init) == AdoptedUpTo(Roused(ps, me, init), me, init, |ps|)
  {
    var a, b := Abandoned(ps, me, init), AdoptedUpTo(Roused(ps, me, init), me, init, |ps|);
    forall i | 0 <= i < |ps| ensures a[i] == b[i] {}
  }

  lemma {:induction false} RousedGentle(ps: seq<Proc>, me: nat, init: nat)
    requires Procs(ps, init) && me < |ps|
    ensures AllGentle(ps, Roused(ps, me, init))
    ensures ps[me].parent.Some? && ps[me].parent.value < |ps| ==>
              !AsleepInWait(Roused(ps, me, init)[ps[me].parent.value])
    ensures ZombieChildBelow(ps, me, |ps|) ==> !AsleepInWait(Roused(ps, me, init)[init])
    ensures Roused(ps, me, init)[me].at == ps[me].at && (ps[me].state == RUNNING ==> Roused(ps, me, init)[me] == ps[me])
  {
    hide Procs;
    SameGentle(ps, init);
    WokenGentle(ps, ps, ParentChan(ps[me]));
    var ps1 := Woken(ps, ParentChan(ps[me]));
    WokenGentle(ps, ps1, Slot(init));
    if ps[me].parent.Some? && ps[me].parent.value < |ps| { WaitChannel(ps, init, ps[me].parent.value); }
    ProcAt(ps, init, init);
  }

  /** Waking sleepers is a gentle change. */
  lemma {:induction false} WokenGentle(ps: seq<Proc>, ps1: seq<Proc>, chan: Chan)
    requires AllGentle(ps, ps1)
    ensures AllGentle(ps, Woken(ps1, chan))
  {
    forall i | 0 <= i < |ps| ensures Gentle(ps[i], Woken(ps1, chan)[i]) && SelfOk(Woken(ps1, chan)[i], i) {
      assert Gentle(ps[i], ps1[i]) && SelfOk(ps1[i], i);
    }
  }

  /** Who sleeps in wait sleeps on its own slot. */
  lemma {:induction false} WaitChannel(ps: seq<Proc>, init: nat, i: nat)
    requires Procs(ps, init) && i < |ps|
    ensures AsleepInWait(ps[i]) ==> ps[i].chan == Slot(i)
  {
    assert ProcOk(ps, i, init);
  }

  /** After the children have gone to init, the exiting process has none. */
  lemma {:induction false} AdoptProcs(ps: seq<Proc>, me: nat, init: nat)
    requires Procs(ps, init) && me < |ps| && me != init && !Forks(ps[me].at)
    requires ZombieChildBelow(ps, me, |ps|) ==> !AsleepInWait(ps[init])
    ensures Procs(AdoptedUpTo(ps, me, init, |ps|), init)
    ensures forall i :: 0 <= i < |ps| ==> AdoptedUpTo(ps, me, init, |ps|)[i].parent != Some(me)
  {
    var ps' := AdoptedUpTo(ps, me, init, |ps|);
    assert ProcOk(ps, init, init);
    forall i | 0 <= i < |ps| ensures ProcOk(ps', i, init) {
      assert ProcOk(ps, i, init);
      if ZombieChild(ps, me, i) { assert ZombieChildBelow(ps, me, |ps|); }
    }
  }

  /** A process without children whose parent is not asleep in wait may become a zombie. */
  lemma {:induction false} DieProcs(ps: seq<Proc>, me: nat, init: nat, p: Proc)
    requires Procs(ps, init) && me < |ps| && me != init && !Forks(ps[me].at) && ps[me].state == RUNNING
    requires forall i :: 0 <= i < |ps| ==> ps[i].parent != Some(me)
    requires ps[me].parent.Some? && ps[me].parent.value < |ps| && !AsleepInWait(ps[ps[me].parent.value])
    requires p.state == ZOMBIE && p.parent == ps[me].parent && p.at == ps[me].at
    ensures Procs(ps[me := p], init)
  {
    var ps' := ps[me := p];
    assert ProcOk(ps, me, init);
    forall i | 0 <= i < |ps| ensures ProcOk(ps', i, init) { assert ProcOk(ps, i, init); }
  }

  lemma {:induction false} RousedZombies(ps: seq<Proc>, me: nat, init: nat)
    requires me < |ps|
    ensures ZombieChildBelow(Roused(ps, me, init), me, |ps|) ==> ZombieChildBelow(ps, me, |ps|)
  {
    var r := Roused(ps, me, init);
    if ZombieChildBelow(r, me, |ps|) {
      var z: nat :| z < |ps| && ZombieChild(r, me, z);
      assert ZombieChild(ps, me, z);
    }
  }

  /** EXIT. The exiting process leaves a table in which the other invariants of fork and wait stand. */
  lemma {:induction false} ExitProcs(ps: seq<Proc>, me: nat, init: nat, p: Proc)
    requires Procs(ps, init) && me < |ps| && me != init && !Forks(ps[me].at) && ps[me].state == RUNNING
    requires p.state == ZOMBIE && p.parent == Abandoned(ps, me, init)[me].parent
    requires p.at == Abandoned(ps, me, init)[me].at
    ensures Procs(Abandoned(ps, me, init)[me := p], init)
  {
    hide Procs;
    hide AllGentle;
    var r := Roused(ps, me, init);
    AbandonedIs(ps, me, init);
    RousedGentle(ps, me, init);
    RousedZombies(ps, me, init);
    GentleProcs(ps, r, init);
    AdoptProcs(r, me, init);
    HasParent(ps, init, me);
    DieProcs(Abandoned(ps, me, init), me, init, p);
  }

  lemma {:induction false} HasParent(ps: seq<Proc>, init: nat, i: nat)
    requires Procs(ps, init) && i < |ps| && i != init && (Live(ps[i]) || ps[i].state == ZOMBIE)
    ensures ps[i].parent.Some? && ps[i].parent.value < |ps| && ps[i].parent.value != i && Live(ps[ps[i].parent.value])
    ensures ps[i].state == ZOMBIE ==> !AsleepInWait(ps[ps[i].parent.value])
  {
    assert ProcOk(ps, i, init);
  }

  /** What exit leaves of the others: their threads, pids and times. */
  lemma {:induction false} AbandonedSame(ps: seq<Proc>, me: nat, init: nat)
    requires Procs(ps, init) && me < |ps|
    ensures forall i ::
              0 <= i < |ps| ==>
                SameTimes(ps[i], Abandoned(ps, me, init)[i]) && Abandoned(ps, me, init)[i].at == ps[i].at
    ensures forall i :: 0 <= i < |ps| && ps[i].state == RUNNING ==> SameThread(ps[i], Abandoned(ps, me, init)[i])
    ensures forall i :: 0 <= i < |ps| && Abandoned(ps, me, init)[i].state == RUNNING ==> ps[i].state == RUNNING
    ensures forall i :: 0 <= i < |ps| ==> Live(Abandoned(ps, me, init)[i]) == Live(ps[i])
    ensures SameRoll(ps, Abandoned(ps, me, init))
  {
    hide Procs;
    hide Abandoned;
    forall i | 0 <= i < |ps| ensures AbandonedOne(ps[i], Abandoned(ps, me, init)[i]) { AbandonedAt(ps, me, init, i); }
  }

  /** What exit of another process may do to p. */
  predicate AbandonedOne(p: Proc, q: Proc)
  {
    && SameTimes(p, q) && q.at == p.at && q.pid == p.pid && Live(q) == Live(p)
    && (p.state == RUNNING ==> SameThread(p, q)) && (q.state == RUNNING ==> p.state == RUNNING)
    && (q.state == UNUSED <==> p.state == UNUSED) && (q.state == ZOMBIE <==> p.state == ZOMBIE)
  }

  lemma {:induction false} AbandonedAt(ps: seq<Proc>, me: nat, init: nat, i: nat)
    requires me < |ps| && i < |ps|
    ensures AbandonedOne(ps[i], Abandoned(ps, me, init)[i])
  {
    AbandonedIs(ps, me, init);
  }

  lemma {:induction false} ExitPids(ps: seq<Proc>, ps': seq<Proc>, me: nat, nextpid: nat, died: set<nat>,
                                    reaped: set<nat>)
    requires Pids(ps, nextpid, died, reaped) && me < |ps| == |ps'| && Live(ps[me]) && ps'[me].state == ZOMBIE
    requires ps'[me].pid == ps[me].pid
    requires forall i ::
               0 <= i < |ps| && i != me ==>
                 ps'[i].pid == ps[i].pid && (ps'[i].state == UNUSED <==> ps[i].state == UNUSED)
    requires forall i :: 0 <= i < |ps| && i != me ==> (ps'[i].state == ZOMBIE <==> ps[i].state == ZOMBIE)
    ensures Pids(ps', nextpid, died + {ps[me].pid}, reaped)
  {
    forall x | x in died + {ps[me].pid} && x !in reaped ensures exists i :: ZombieWith(ps', i, x) {
      if x == ps[me].pid {
        assert ZombieWith(ps', me, x);
      } else {
        var i :| ZombieWith(ps, i, x);
        assert ZombieWith(ps', i, x);
      }
    }
  }

  lemma {:induction false} ExitTimes(s: State, s': State, me: nat)
    requires Times(s) && me < |s.procs| == |s'.procs| && Live(s.procs[me]) && s'.ticks == s.ticks
    requires forall i :: Owed(s', i) == Owed(s, i)
    requires forall i ::
               0 <= i < |s.procs| && i != me ==>
                 SameTimes(s.procs[i], s'.procs[i]) && Live(s.procs[i]) == Live(s'.procs[i])
    requires forall i :: 0 <= i < |s.procs| && i != me ==> (s'.procs[i].state == ZOMBIE <==> s.procs[i].state == ZOMBIE)
    requires forall i :: 0 <= i < |s.procs| ==> s'.procs[i].at == s.procs[i].at
    requires s'.procs[me].state == ZOMBIE && s'.procs[me].etime == s.ticks
    requires s'.procs[me].ctime == s.procs[me].ctime && s'.procs[me].rtime == s.procs[me].rtime
    requires s'.procs[me].iotime == s.procs[me].iotime
    ensures Times(s')
  {}

  lemma {:induction false} ExitInv(s: State, c: nat)
    requires Inv(s) && Enabled(s, c, ExitGo)
    ensures Inv(Next(s, c, ExitGo)) && !Panics(s, c, ExitGo)
  {
    hide Procs;
    hide Pids;
    hide Times;
    hide Abandoned;
    hide SameTimes;
    hide Cpus;
    CpuOf(s, c);
    var k, me, s' := s.cpus[c], Me(s.cpus[c]), Next(s, c, ExitGo);
    var left := Abandoned(s.procs, me, s.init);
    var p := Saved(k, Died(left[me], s.ticks));
    AbandonedSame(s.procs, me, s.init);
    ExitProcs(s.procs, me, s.init, p);
    ExitPids(s.procs, s'.procs, me, s.nextpid, s.died, s.reaped);
    CpusKeep(s, c, k.(pc := Back), left[me := p]);
    DiedTimes(s.procs[me], left[me], s.ticks, k);
    ExitTimes(s, s', me);
  }

  lemma {:induction false} DiedTimes(p: Proc, q: Proc, ticks: nat, k: Cpu)
    requires SameTimes(p, q)
    ensures var r := Saved(k, Died(q, ticks));
            r.ctime == p.ctime && r.rtime == p.rtime && r.iotime == p.iotime && r.etime == ticks
  {}

  // ----- wait and waitx -----

  lemma {:induction false} ReapProcs(ps: seq<Proc>, init: nat, z: nat)
    requires Procs(ps, init) && z < |ps| && ps[z].state == ZOMBIE
    ensures Procs(ps[z := Reap(ps[z])], init)
  {
    var ps' := ps[z := Reap(ps[z])];
    assert ProcOk(ps, z, init);
    forall i | 0 <= i < |ps| ensures ProcOk(ps', i, init) { assert ProcOk(ps, i, init); }
  }

  lemma {:induction false} ReapPids(ps: seq<Proc>, z: nat, nextpid: nat, died: set<nat>, reaped: set<nat>)
    requires Pids(ps, nextpid, died, reaped) && z < |ps| && ps[z].state == ZOMBIE
    ensures ps[z].pid in died && ps[z].pid !in reaped
    ensures Pids(ps[z := Reap(ps[z])], nextpid, died, reaped + {ps[z].pid})
  {
    var ps' := ps[z := Reap(ps[z])];
    assert PidOk(ps[z], nextpid, died, reaped);
    forall x | x in died && x !in reaped + {ps[z].pid} ensures exists i :: ZombieWith(ps', i, x) {
      var i :| ZombieWith(ps, i, x);
      assert ZombieWith(ps', i, x);
    }
  }

  /** A process that found no zombie child may fall asleep on its slot. */
  lemma {:induction false} WaitProcs(ps: seq<Proc>, init: nat, me: nat, p: Proc)
    requires Procs(ps, init) && me < |ps| && ps[me].state == RUNNING && ps[me].at == Kernel
    requires forall i :: 0 <= i < |ps| ==> !(ps[i].parent == Some(me) && ps[i].state == ZOMBIE)
    requires p == FallAsleep(ps[me], Slot(me), InWait, Kernel).(intena := p.intena)
    ensures Procs(ps[me := p], init)
  {
    var ps' := ps[me := p];
    assert ProcOk(ps, me, init);
    forall i | 0 <= i < |ps| ensures ProcOk(ps', i, init) { assert ProcOk(ps, i, init); }
  }

  lemma {:induction false} WaitReapInv(s: State, c: nat, z: nat)
    requires Inv(s) && Enabled(s, c, WaitGo) && z < |s.procs| && s.procs[z].state == ZOMBIE
    ensures Inv(Put(s, c, s.cpus[c].(pc := Unlock(NoIrq)),
            s.procs[z := Reap(s.procs[z])]).(reaped := s.reaped + {s.procs[z].pid}))
  {
    hide Procs;
    hide Pids;
    hide Cpus;
    hide Times;
    CpuOf(s, c);
    var k, ps := s.cpus[c], s.procs[z := Reap(s.procs[z])];
    ReapProcs(s.procs, s.init, z);
    ReapPids(s.procs, z, s.nextpid, s.died, s.reaped);
    CpusKeep(s, c, k.(pc := Unlock(NoIrq)), ps);
    NotForked(s.procs, s.init, z);
    ReapTimes(s, Put(s, c, k.(pc := Unlock(NoIrq)), ps), z);
  }

  lemma {:induction false} ReapTimes(s: State, s': State, z: nat)
    requires Times(s) && z < |s.procs| && s'.procs == s.procs[z := Reap(s.procs[z])] && s'.ticks == s.ticks
    requires forall i :: Owed(s', i) <= Owed(s, i)
    requires forall i :: 0 <= i < |s.procs| && Forks(s.procs[i].at) ==> s.procs[i].at.np != z
    ensures forall r :: Times(s'.(reaped := r))
  {
    forall r ensures Times(s'.(reaped := r)) {
      forall i | 0 <= i < |s.procs|
        ensures TimeOk(s'.procs[i], Owed(s'.(reaped := r), i), s.ticks)
      {
        assert TimeOk(s.procs[i], Owed(s, i), s.ticks);
      }
    }
  }

  lemma {:induction false} NotForked(ps: seq<Proc>, init: nat, z: nat)
    requires Procs(ps, init) && z < |ps| && ps[z].state != EMBRYO
    ensures forall i :: 0 <= i < |ps| && Forks(ps[i].at) ==> ps[i].at.np != z
  {
    forall i | 0 <= i < |ps| && Forks(ps[i].at) ensures ps[i].at.np != z { ForkedEmbryo(ps, init, i); }
  }

  lemma {:induction false} WaitSleepInv(s: State, c: nat, p: Proc)
    requires Inv(s) && Enabled(s, c, WaitGo)
    requires p == Saved(s.cpus[c], FallAsleep(s.procs[Me(s.cpus[c])], Slot(Me(s.cpus[c])), InWait, Kernel))
    requires forall i ::
               0 <= i < |s.procs| ==> !(s.procs[i].parent == Some(Me(s.cpus[c])) && s.procs[i].state == ZOMBIE)
    ensures Inv(Put(s, c, s.cpus[c].(pc := Back), s.procs[Me(s.cpus[c]) := p]))
    ensures !SchedPanics(s.cpus[c], p) && s.procs[Me(s.cpus[c])].at == Kernel
  {
    hide Procs;
    hide Pids;
    hide Cpus;
    CpuOf(s, c);
    var k, me := s.cpus[c], Me(s.cpus[c]);
    var ps := s.procs[me := p];
    WaitProcs(s.procs, s.init, me, p);
    PidsKeep(s.procs, ps, s.nextpid, s.died, s.reaped);
    CpusKeep(s, c, k.(pc := Back), ps);
    NotForked(s.procs, s.init, me);
  }

  lemma {:induction false} WaitInv(s: State, c: nat)
    requires Inv(s) && Enabled(s, c, WaitGo)
    ensures Inv(Next(s, c, WaitGo)) && !Panics(s, c, WaitGo)
  {
    hide Inv;
    var k, me := s.cpus[c], Me(s.cpus[c]);
    var z := FirstZombie(s.procs, me, 0);
    if z < |s.procs| {
      WaitReapInv(s, c, z);
    } else if !HasKids(s.procs, me) || s.procs[me].killed {
      ScanOnlyInv(s, c);
    } else {
      WaitSleepInv(s, c, Saved(k, FallAsleep(s.procs[me], Slot(me), InWait, Kernel)));
      assert s.procs[me := FallAsleep(s.procs[me], Slot(me), InWait, Kernel)][me := Saved(k,
          FallAsleep(s.procs[me], Slot(me), InWait, Kernel))]
          == s.procs[me := Saved(k, FallAsleep(s.procs[me], Slot(me), InWait, Kernel))];
    }
  }

  // ----- all runs -----

  /** init calls exit. */
  predicate InitExit(s: State, c: nat, a: Action)
    requires c < |s.cpus|
  {
    a.OnCpu? && InitExits(s.cpus[c], s.init, a.a)
  }

  /** STEP. Every step of every processor but init's exit keeps the invariant, and none panics. */
  lemma {:induction false} StepInv(s: State, c: nat, a: Action)
    requires Inv(s) && Enabled(s, c, a) && !InitExit(s, c, a)
    ensures Inv(Next(s, c, a)) && !Panics(s, c, a)
  {
    hide Inv;
    hide Next;
    hide Enabled;
    match a
    case OnCpu(b) => OnCpuInv(s, c, b);
    case Pick => PickInv(s, c);
    case ResumeProc => ResumeInv(s, c);
    case WakeAll => WakeInv(s, c);
    case YieldGo => YieldInv(s, c);
    case SleepGo => SleepInv(s, c);
    case ExitGo => ExitInv(s, c);
    case WaitGo => WaitInv(s, c);
    case ForkGo => ForkGoInv(s, c);
    case StartGo => StartInv(s, c);
    case KillGo => KillInv(s, c);
    case TickInc => TickInv(s, c);
    case ChargeProc => ChargeInv(s, c);
    case Relocks => RelockInv(s, c);
    case SysEnter | SysExit | Fault => OwnInv(s, c, a);
    case ForkFail | ForkTime | ForkAdopt => ForkNextInv(s, c, a);
  }

  /** What main leaves when the processors enter scheduler(): init ready to run, nothing else. */
  ghost predicate Boot(s: State)
  {
    && s.init < |s.procs| && s.nextpid == 2 && s.died == {} && s.reaped == {} && s.charges == 0
    && (forall i :: 0 <= i < |s.procs| ==>
          && s.procs[i].parent == None && s.procs[i].at == User
          && (i != s.init ==> s.procs[i].state == UNUSED))
    && s.procs[s.init].state == RUNNABLE && s.procs[s.init].frame == InForkret && s.procs[s.init].pid == 1
    && FreshOk(s.procs[s.init], s.ticks)
    && (forall c :: 0 <= c < |s.cpus| ==> s.cpus[c] == Cpu(None, 0, s.cpus[c].intena, false, {}, s.cpus[c].scan, Top))
  }

  lemma {:induction false} BootInv(s: State)
    requires Boot(s)
    ensures Inv(s)
  {
    forall i | 0 <= i < |s.procs| ensures ProcOk(s.procs, i, s.init) {}
    forall c | 0 <= c < |s.cpus| ensures CpuOk(s.cpus[c], c, s.procs, s.init) {}
  }

  /** The state after the first n steps of a schedule, if each could be taken and none panicked. */
  ghost function After(s: State, run: seq<(nat, Action)>, n: nat): Option<State>
    requires n <= |run|
  {
    if n == 0 then Some(s)
    else
      var t := After(s, run, n - 1);
      if t.Some? && Enabled(t.value, run[n-1].0, run[n-1].1) && !Panics(t.value, run[n-1].0, run[n-1].1)
      then Some(Next(t.value, run[n-1].0, run[n-1].1)) else None
  }

  ghost predicate Reaches(s0: State, run: seq<(nat, Action)>, s: State) { Boot(s0) && After(s0, run, |run|) == Some(s) }

  lemma {:induction false} RunInv(s0: State, run: seq<(nat, Action)>, n: nat)
    requires Boot(s0) && n <= |run| && After(s0, run, n).Some?
    ensures Inv(After(s0, run, n).value)
  {
    if n == 0 {
      BootInv(s0);
    } else {
      RunInv(s0, run, n - 1);
      assert !InitExit(After(s0, run, n - 1).value, run[n-1].0, run[n-1].1);
      StepInv(After(s0, run, n - 1).value, run[n-1].0, run[n-1].1);
    }
  }

  /** ONLY INIT'S EXIT PANICS. In every run a step panics if and only if it is exit called by init: not acquire, release
      or popcli, none of sched's four checks, and an exited process is not resumed. */
  lemma {:induction false} OnlyInitPanics(s0: State, run: seq<(nat, Action)>, s: State, c: nat, a: Action)
    requires Reaches(s0, run, s) && Enabled(s, c, a)
    ensures Panics(s, c, a) <==> InitExit(s, c, a)
  {
    RunInv(s0, run, |run|);
    if !InitExit(s, c, a) { StepInv(s, c, a); }
  }

  /** Processor 0 starts init, which kills itself. */
  function KillingInit(): seq<(nat, Action)>
  {
    [(0, OnCpu(Sti)), (0, OnCpu(Lookup)), (0, Pick), (0, ResumeProc), (0, OnCpu(Unlocks)),
     (0, SysEnter), (0, OnCpu(KillLock(1))), (0, KillGo), (0, OnCpu(Unlocks))]
  }

  /** The state with processor 0 at k and init, in slot 0, at p; everything else is as in s0. */
  function InitAt(s0: State, k: Cpu, p: Proc): State
    requires |s0.cpus| > 0 && |s0.procs| > 0
  {
    s0.(cpus := s0.cpus[0 := k], procs := s0.procs[0 := p])
  }

  ghost predicate Quiet(s0: State)
  {
    |s0.cpus| > 0 && |s0.procs| > 0 && s0.init == 0 && forall c :: 1 <= c < |s0.cpus| ==> s0.cpus[c].held == {}
  }

  /** In the state InitAt(s0, k, p) processor 0 can do a, which leads to InitAt(s0, k', p'). */
  ghost predicate Leads(s0: State, k: Cpu, p: Proc, a: Action, k': Cpu, p': Proc)
  {
    && |s0.cpus| > 0 && |s0.procs| > 0
    && var s := InitAt(s0, k, p); Enabled(s, 0, a) && !Panics(s, 0, a) && Next(s, 0, a) == InitAt(s0, k', p')
  }

  lemma {:induction false} CpuLeads(s0: State, k: Cpu, p: Proc, a: CpuAction)
    requires Quiet(s0) && CpuEnabled(k, 0, s0.procs[0 := p], a) && !InitExits(k, 0, a) && !CpuPanics(k, a)
    requires k.held == (if Gives(a).Some? then {Ptable} else {})
    ensures Leads(s0, k, p, OnCpu(a), CpuNext(k, a), p)
  {
    hide CpuEnabled;
    hide CpuNext;
    hide CpuPanics;
  }

  lemma {:induction false} RunsOn(s0: State, run: seq<(nat, Action)>, n: nat, k: Cpu, p: Proc, k': Cpu, p': Proc)
    requires |s0.cpus| > 0 && |s0.procs| > 0 && n < |run| && run[n].0 == 0 && Leads(s0, k, p, run[n].1, k', p')
    requires After(s0, run, n) == Some(InitAt(s0, k, p))
    ensures After(s0, run, n + 1) == Some(InitAt(s0, k', p'))
  {
    hide Next;
    hide Enabled;
    hide Panics;
  }

  lemma {:induction false} NotBegun(s0: State, run: seq<(nat, Action)>)
    requires |s0.cpus| > 0 && |s0.procs| > 0
    ensures After(s0, run, 0) == Some(InitAt(s0, s0.cpus[0], s0.procs[0]))
  {
    assert InitAt(s0, s0.cpus[0], s0.procs[0]) == s0;
  }

  /** Processor 0 outside the scheduler, at user or system code of init, with no lock or with ptable.lock. */
  function Outside(locked: bool, pc: Pc): Cpu
  {
    Cpu(Some(0), if locked then 1 else 0, true, !locked, if locked then {Ptable} else {}, 0, pc)
  }

  lemma {:induction false} PickLeads(s0: State, p: Proc)
    requires Quiet(s0) && p.state == RUNNABLE && p.frame == InForkret
    ensures Leads(s0, Outside(true, Scan).(proc := None), p, Pick, Outside(true, Resume), p.(state := RUNNING))
    ensures Leads(s0, Outside(true, Resume), p.(state := RUNNING), ResumeProc, Outside(true, Unlock(NoIrq)),
            p.(state := RUNNING))
  {}

  lemma {:induction false} KillLeads(s0: State, p: Proc)
    requires Quiet(s0) && p.state == RUNNING && p.at == User && p.pid == 1
    ensures Leads(s0, Outside(false, Run(NoIrq)), p, SysEnter, Outside(false, Run(NoIrq)), p.(at := Kernel))
    ensures Leads(s0, Outside(true, Killing(1)), p.(at := Kernel), KillGo, Outside(true, Unlock(NoIrq)),
            p.(at := Kernel, killed := true))
  {
    assert FirstPid(s0.procs[0 := p.(at := Kernel)], 1, 0) == 0;
  }

  lemma {:induction false} UnlockLeads(s0: State, p: Proc)
    requires Quiet(s0)
    ensures Leads(s0, Outside(true, Unlock(NoIrq)), p, OnCpu(Unlocks), Outside(false, Run(NoIrq)), p)
  {
    var k := Outside(true, Unlock(NoIrq));
    assert CpuNext(k, Unlocks) == Outside(false, Run(NoIrq)) by { assert {Ptable} - {Ptable} == {}; }
    CpuLeads(s0, k, p, Unlocks);
  }

  /** init runs in user mode after five steps. */
  lemma {:induction false} InitStarts(s0: State)
    requires Boot(s0) && s0.init == 0 && |s0.cpus| > 0
    ensures Quiet(s0)
    ensures After(s0, KillingInit(), 5) == Some(InitAt(s0, Outside(false, Run(NoIrq)), s0.procs[0].(state := RUNNING)))
  {
    hide After;
    hide Leads;
    var run, k0, p := KillingInit(), s0.cpus[0], s0.procs[0];
    NotBegun(s0, run);
    var k1 := CpuNext(k0, Sti);
    CpuLeads(s0, k0, p, Sti);
    RunsOn(s0, run, 0, k0, p, k1, p);
    var k2 := CpuNext(k1, Lookup);
    CpuLeads(s0, k1, p, Lookup);
    RunsOn(s0, run, 1, k1, p, k2, p);
    assert k2 == Outside(true, Scan).(proc := None);
    PickLeads(s0, p);
    RunsOn(s0, run, 2, k2, p, Outside(true, Resume), p.(state := RUNNING));
    RunsOn(s0, run, 3, Outside(true, Resume), p.(state := RUNNING), Outside(true, Unlock(NoIrq)), p.(state := RUNNING));
    UnlockLeads(s0, p.(state := RUNNING));
    RunsOn(s0, run, 4, Outside(true, Unlock(NoIrq)), p.(state := RUNNING), Outside(false, Run(NoIrq)),
        p.(state := RUNNING));
  }

  /** The panic is reachable: from every boot with init in the first slot there is a run in which init is killed and,
      on its way out of the system call, calls exit. */
  lemma {:induction false} InitExitReachable(s0: State) returns (s: State)
    requires Boot(s0) && s0.init == 0 && |s0.cpus| > 0
    ensures Reaches(s0, KillingInit(), s) && |s.procs| > 0 && s.procs[0].killed
    ensures Enabled(s, 0, OnCpu(ExitLock)) && Panics(s, 0, OnCpu(ExitLock))
  {
    hide After;
    hide Leads;
    var run, p := KillingInit(), s0.procs[0].(state := RUNNING);
    var q, dead := p.(at := Kernel), p.(at := Kernel, killed := true);
    InitStarts(s0);
    KillLeads(s0, p);
    RunsOn(s0, run, 5, Outside(false, Run(NoIrq)), p, Outside(false, Run(NoIrq)), q);
    CpuLeads(s0, Outside(false, Run(NoIrq)), q, KillLock(1));
    assert CpuNext(Outside(false, Run(NoIrq)), KillLock(1)) == Outside(true, Killing(1));
    RunsOn(s0, run, 6, Outside(false, Run(NoIrq)), q, Outside(true, Killing(1)), q);
    RunsOn(s0, run, 7, Outside(true, Killing(1)), q, Outside(true, Unlock(NoIrq)), dead);
    UnlockLeads(s0, dead);
    RunsOn(s0, run, 8, Outside(true, Unlock(NoIrq)), dead, Outside(false, Run(NoIrq)), dead);
    s := InitAt(s0, Outside(false, Run(NoIrq)), dead);
  }

  /** HAND-OFF. While ptable.lock is free, a process is RUNNING if and only if some processor's proc is it, and
      then only one's. */
  lemma {:induction false} HandOff(s0: State, run: seq<(nat, Action)>, s: State)
    requires Reaches(s0, run, s) && LockFree(s.cpus, Ptable)
    ensures forall i :: 0 <= i < |s.procs| ==> (s.procs[i].state == RUNNING <==> exists c :: OnCpuOf(s.cpus, c, i))
    ensures forall i, c, d :: OnCpuOf(s.cpus, c, i) && OnCpuOf(s.cpus, d, i) ==> c == d
  {
    hide Inv;
    RunInv(s0, run, |run|);
    forall i | 0 <= i < |s.procs| ensures s.procs[i].state == RUNNING <==> exists c :: OnCpuOf(s.cpus, c, i) {
      if s.procs[i].state == RUNNING { RunsSomewhere(s, i); }
      if c :| OnCpuOf(s.cpus, c, i) { RunsWhenFree(s, c); }
    }
    forall i, c, d | OnCpuOf(s.cpus, c, i) && OnCpuOf(s.cpus, d, i) ensures c == d { OneCpu(s, i, c, d); }
  }

  lemma {:induction false} RunsSomewhere(s: State, i: nat)
    requires Inv(s) && i < |s.procs| && s.procs[i].state == RUNNING
    ensures exists c :: OnCpuOf(s.cpus, c, i)
  {}

  lemma {:induction false} RunsWhenFree(s: State, c: nat)
    requires Inv(s) && LockFree(s.cpus, Ptable) && c < |s.cpus| && s.cpus[c].proc.Some?
    ensures s.cpus[c].proc.value < |s.procs| && s.procs[s.cpus[c].proc.value].state == RUNNING
  {
    hide Cpus;
    CpuOf(s, c);
  }

  lemma {:induction false} OneCpu(s: State, i: nat, c: nat, d: nat)
    requires Inv(s) && OnCpuOf(s.cpus, c, i) && OnCpuOf(s.cpus, d, i)
    ensures c == d
  {
    hide CpuOk;
  }

  /** At any moment, an interrupt finds no lock held, and a RUNNING process if any. */
  lemma {:induction false} InterruptsOn(s0: State, run: seq<(nat, Action)>, s: State, c: nat)
    requires Reaches(s0, run, s) && c < |s.cpus| && s.cpus[c].ifl
    ensures s.cpus[c].held == {} && s.cpus[c].ncli == 0
    ensures s.cpus[c].proc.Some? ==> Mine(s.cpus[c], s.procs) && s.procs[s.cpus[c].proc.value].state == RUNNING
  {
    RunInv(s0, run, |run|);
    assert CpuOk(s.cpus[c], c, s.procs, s.init);
  }

  /** A lock is held by one processor at most. */
  lemma {:induction false} Exclusion(s0: State, run: seq<(nat, Action)>, s: State, c: nat, d: nat, l: Lock)
    requires Reaches(s0, run, s) && c < |s.cpus| && d < |s.cpus| && l in s.cpus[c].held && l in s.cpus[d].held
    ensures c == d
  {
    RunInv(s0, run, |run|);
  }

  lemma {:induction false} NotLost(ps: seq<Proc>, init: nat, i: nat, z: nat)
    requires Procs(ps, init) && i < |ps| && AsleepInWait(ps[i])
    ensures !ZombieChild(ps, i, z)
  {
    if z < |ps| { assert ProcOk(ps, z, init); }
  }

  /** NO LOST EXIT. A process asleep in wait or waitx has no zombie child; every process that was started, except
      init, has a parent that is neither unused nor a zombie, and init is never either. */
  lemma {:induction false} NoLostExit(s0: State, run: seq<(nat, Action)>, s: State)
    requires Reaches(s0, run, s)
    ensures forall i, z: nat :: 0 <= i < |s.procs| && AsleepInWait(s.procs[i]) ==> !ZombieChild(s.procs, i, z)
    ensures forall z :: 0 <= z < |s.procs| && z != s.init && (Live(s.procs[z]) || s.procs[z].state == ZOMBIE) ==>
                          s.procs[z].parent.Some? && s.procs[z].parent.value < |s.procs|
                              && Live(s.procs[s.procs[z].parent.value])
    ensures s.init < |s.procs| && Live(s.procs[s.init])
  {
    RunInv(s0, run, |run|);
    assert ProcOk(s.procs, s.init, s.init);
    forall i, z: nat | 0 <= i < |s.procs| && AsleepInWait(s.procs[i]) ensures !ZombieChild(s.procs, i, z) {
      NotLost(s.procs, s.init, i, z);
    }
    forall z | 0 <= z < |s.procs| && z != s.init && (Live(s.procs[z]) || s.procs[z].state == ZOMBIE)
      ensures s.procs[z].parent.Some? && s.procs[z].parent.value < |s.procs| && Live(s.procs[s.procs[z].parent.value])
    {
      HasParent(s.procs, s.init, z);
    }
  }

  /** REAPED ONCE. A pid that wait returns is that of a child that exited and was never returned before; and what
      exited and was not returned yet is still there as a zombie. */
  lemma {:induction false} ReapedOnce(s0: State, run: seq<(nat, Action)>, s: State, c: nat)
    requires Reaches(s0, run, s) && Enabled(s, c, WaitGo)
    ensures var r := WaitScan(s.procs, Me(s.cpus[c])).1;
            r.Reaped? ==> && r.pid in s.died && r.pid !in s.reaped && Next(s, c, WaitGo).reaped == s.reaped + {r.pid}
                          && exists z: nat :: ZombieChild(s.procs, Me(s.cpus[c]), z) && s.procs[z].pid == r.pid
    ensures forall x :: x in s.died && x !in s.reaped ==> exists z :: ZombieWith(s.procs, z, x)
  {
    RunInv(s0, run, |run|);
    var z := FirstZombie(s.procs, Me(s.cpus[c]), 0);
    if z < |s.procs| {
      assert ZombieChild(s.procs, Me(s.cpus[c]), z);
      assert PidOk(s.procs[z], s.nextpid, s.died, s.reaped);
    }
  }

  /** ACCOUNTING. The times waitx returns are not negative and add up to the child's lifetime, of which none is
      charged as I/O time. */
  lemma {:induction false} WaitxAddsUp(s0: State, run: seq<(nat, Action)>, s: State, c: nat)
    requires Reaches(s0, run, s) && Enabled(s, c, WaitGo) && WaitScan(s.procs, Me(s.cpus[c])).1.Reaped?
    ensures var r, z := WaitScan(s.procs, Me(s.cpus[c])).1, s.procs[FirstZombie(s.procs, Me(s.cpus[c]), 0)];
            r.wtime >= 0 && r.wtime + r.rtime == z.etime - z.ctime && z.etime <= s.ticks && z.iotime == 0
  {
    RunInv(s0, run, |run|);
    var z := FirstZombie(s.procs, Me(s.cpus[c]), 0);
    assert TimeOk(s.procs[z], Owed(s, z), s.ticks);
  }

  /** A C int on this machine: 32 bits, two's complement. */
  function Int32(x: int): int { (x + 0x8000_0000) % 0x1_0000_0000 - 0x8000_0000 }

  lemma {:induction false} Int32Off(x: int) returns (k: int)
    ensures Int32(x) == x + k * 0x1_0000_0000
  {
    k := -((x + 0x8000_0000) / 0x1_0000_0000);
  }

  lemma {:induction false} Int32Same(x: int, y: int, k: int)
    requires x == y + k * 0x1_0000_0000
    ensures Int32(x) == Int32(y)
  {
    var q, r := (y + 0x8000_0000) / 0x1_0000_0000, (y + 0x8000_0000) % 0x1_0000_0000;
    assert x + 0x8000_0000 == (q + k) * 0x1_0000_0000 + r;
  }

  /** waitx on 32-bit fields, which have wrapped or not: its wtime is the true one if that is below 2^31, and only
      then. */
  lemma {:induction false} WaitxWraps(etime: nat, ctime: nat, rtime: nat, iotime: nat)
    requires ctime + rtime + iotime <= etime
    ensures Int32(Int32(etime) - Int32(ctime) - Int32(rtime) - Int32(iotime)) == etime - ctime - rtime - iotime
            <==> etime - ctime - rtime - iotime < 0x8000_0000
  {
    var a := Int32Off(etime);
    var b := Int32Off(ctime);
    var c := Int32Off(rtime);
    var d := Int32Off(iotime);
    var w := etime - ctime - rtime - iotime;
    assert Int32(etime) - Int32(ctime) - Int32(rtime) - Int32(iotime) == w + (a - b - c - d) * 0x1_0000_0000;
    Int32Same(Int32(etime) - Int32(ctime) - Int32(rtime) - Int32(iotime), w, a - b - c - d);
  }

  /** A process is never charged more ticks than have passed since it was created; a tick charges at most one
      process, and the charge is never made to a sleeping one. */
  lemma {:induction false} TickAccounting(s0: State, run: seq<(nat, Action)>, s: State)
    requires Reaches(s0, run, s)
    ensures forall i :: 0 <= i < |s.procs| && Live(s.procs[i]) ==>
                          s.procs[i].rtime + s.procs[i].iotime <= s.ticks - s.procs[i].ctime && s.procs[i].iotime == 0
    ensures s.charges <= s.ticks
    ensures forall c: nat :: c < |s.cpus| && Enabled(s, c, ChargeProc) && Mine(s.cpus[c], s.procs) ==>
                               c == 0 && s.procs[Me(s.cpus[c])].state == RUNNING
  {
    RunInv(s0, run, |run|);
    forall i | 0 <= i < |s.procs| && Live(s.procs[i])
      ensures s.procs[i].rtime + s.procs[i].iotime <= s.ticks - s.procs[i].ctime && s.procs[i].iotime == 0
    {
      assert TimeOk(s.procs[i], Owed(s, i), s.ticks);
    }
    forall c: nat | c < |s.cpus| && Enabled(s, c, ChargeProc) && Mine(s.cpus[c], s.procs)
      ensures c == 0 && s.procs[Me(s.cpus[c])].state == RUNNING
    {
      ChargeRuns(s, c);
    }
  }
}
