/** The process table of proc.c and the scans made over it while ptable.lock is held. */
module ProcTable {
  import opened Options

  datatype ProcState = UNUSED | EMBRYO | SLEEPING | RUNNABLE | RUNNING | ZOMBIE

  datatype Lock = Ptable | Tickslock | Other(id: nat)

  /** A sleep channel is an address: of a process-table slot, of `ticks`, or of something else; 0 is NoChan. */
  datatype Chan = NoChan | Slot(proc: nat) | Ticks | Address(a: nat)

  /** Where a process's kernel thread is, leaving aside the interrupt handler or the critical section it may be in. */
  datatype At = User | Kernel | Forked(np: nat) | Timed(np: nat) | Adopted(np: nat) | Relock(lk: Lock)

  /** The function that called sched(), or forkret: where the saved context resumes. */
  datatype Frame = InYield | InSleep | InWait | InForkret | InExit

  datatype Proc = Proc(state: ProcState, pid: nat, parent: Option<nat>, chan: Chan, killed: bool,
                       ctime: nat, etime: nat, rtime: nat, iotime: nat, at: At, frame: Frame, intena: bool)

  /** Asleep in wait() or waitx(). */
  predicate AsleepInWait(p: Proc) { p.state == SLEEPING && p.frame == InWait }

  // ----- wakeup1 -----

  function Wake(p: Proc, chan: Chan): Proc
  {
    if p.state == SLEEPING && p.chan == chan then p.(state := RUNNABLE) else p
  }

  function Woken(ps: seq<Proc>, chan: Chan): (r: seq<Proc>)
    ensures |r| == |ps|
    ensures forall i {:trigger r[i]} :: 0 <= i < |ps| ==> r[i] == Wake(ps[i], chan)
  {
    seq(|ps|, i requires 0 <= i < |ps| => Wake(ps[i], chan))
  }

  // ----- exit -----

  /** A process whose parent exits gets init as its parent. */
  function Adopt(p: Proc, me: nat, init: nat): Proc
  {
    if p.parent == Some(me) then p.(parent := Some(init)) else p
  }

  function AdoptedUpTo(ps: seq<Proc>, me: nat, init: nat, n: nat): (r: seq<Proc>)
    ensures |r| == |ps|
    ensures forall i {:trigger r[i]} :: 0 <= i < |ps| ==> r[i] == if i < n then Adopt(ps[i], me, init) else ps[i]
  {
    seq(|ps|, i requires 0 <= i < |ps| => if i < n then Adopt(ps[i], me, init) else ps[i])
  }

  ghost predicate ZombieChild(ps: seq<Proc>, me: nat, z: nat)
  {
    z < |ps| && ps[z].parent == Some(me) && ps[z].state == ZOMBIE
  }

  ghost predicate ZombieChildBelow(ps: seq<Proc>, me: nat, n: nat) { exists z: nat :: z < n && ZombieChild(ps, me, z) }

  /** exit's two loops: the parent is woken, the children pass to init, which is woken if one is a zombie. */
  ghost function Abandoned(ps: seq<Proc>, me: nat, init: nat): (r: seq<Proc>)
    requires me < |ps|
    ensures |r| == |ps|
  {
    var ps1 := Woken(ps, ParentChan(ps[me]));
    var ps2 := AdoptedUpTo(ps1, me, init, |ps|);
    if ZombieChildBelow(ps, me, |ps|) then Woken(ps2, Slot(init)) else ps2
  }

  function ParentChan(p: Proc): Chan { if p.parent.Some? then Slot(p.parent.value) else NoChan }

  function Died(p: Proc, ticks: nat): Proc { p.(state := ZOMBIE, etime := ticks, frame := InExit) }

  // ----- wait, waitx, fork, kill: first match -----

  function FirstZombie(ps: seq<Proc>, me: nat, i: nat): (r: nat)
    requires i <= |ps|
    ensures i <= r <= |ps| && (r < |ps| ==> ps[r].parent == Some(me) && ps[r].state == ZOMBIE)
    ensures forall j :: i <= j < r ==> !(ps[j].parent == Some(me) && ps[j].state == ZOMBIE)
    decreases |ps| - i
  {
    if i == |ps| || (ps[i].parent == Some(me) && ps[i].state == ZOMBIE) then i else FirstZombie(ps, me, i + 1)
  }

  function FirstUnused(ps: seq<Proc>, i: nat): (r: nat)
    requires i <= |ps|
    ensures i <= r <= |ps| && (r < |ps| ==> ps[r].state == UNUSED)
    ensures forall j :: i <= j < r ==> ps[j].state != UNUSED
    decreases |ps| - i
  {
    if i == |ps| || ps[i].state == UNUSED then i else FirstUnused(ps, i + 1)
  }

  function FirstPid(ps: seq<Proc>, pid: nat, i: nat): (r: nat)
    requires i <= |ps|
    ensures i <= r <= |ps| && (r < |ps| ==> ps[r].pid == pid)
    ensures forall j :: i <= j < r ==> ps[j].pid != pid
    decreases |ps| - i
  {
    if i == |ps| || ps[i].pid == pid then i else FirstPid(ps, pid, i + 1)
  }

  predicate HasKids(ps: seq<Proc>, me: nat) { exists i :: 0 <= i < |ps| && ps[i].parent == Some(me) }

  /** A zombie's slot after wait() has taken it. */
  function Reap(p: Proc): Proc { p.(state := UNUSED, pid := 0, parent := None, killed := false) }

  function Embryo(p: Proc, pid: nat): Proc { p.(state := EMBRYO, pid := pid) }

  function Kill1(p: Proc): Proc { p.(killed := true, state := if p.state == SLEEPING then RUNNABLE else p.state) }

  function FallAsleep(p: Proc, chan: Chan, frame: Frame, at: At): Proc
  {
    p.(chan := chan, state := SLEEPING, frame := frame, at := at)
  }

  datatype Waited = Reaped(pid: nat, wtime: int, rtime: nat) | NoChild | Sleeps

  /** What one scan of wait or waitx does: take the first zombie child; or give up without children or when
      killed; or go to sleep on the process's own slot. */
  function WaitScan(ps: seq<Proc>, me: nat): (r: (seq<Proc>, Waited))
    requires me < |ps|
    ensures |r.0| == |ps|
  {
    var z := FirstZombie(ps, me, 0);
    if z < |ps| then
      (ps[z := Reap(ps[z])],
       Reaped(ps[z].pid, ps[z].etime - ps[z].ctime - ps[z].rtime - ps[z].iotime, ps[z].rtime))
    else if !HasKids(ps, me) || ps[me].killed then (ps, NoChild)
    else (ps[me := FallAsleep(ps[me], Slot(me), InWait, ps[me].at)], Sleeps)
  }

  /** The table and its loops, as proc.c runs them with ptable.lock held. */
  class Table {
    var procs: seq<Proc>
    var nextpid: nat
    const init: nat

    constructor (slots: nat, init: nat)
      requires init < slots
      ensures |procs| == slots && this.init == init && nextpid == 1
      ensures forall i :: 0 <= i < slots ==> procs[i].state == UNUSED && procs[i].parent == None
    {
      var blank := Proc(UNUSED, 0, None, NoChan, false, 0, 0, 0, 0, User, InForkret, false);
      procs := seq(slots, i => blank);
      nextpid := 1;
      this.init := init;
    }

    method Wakeup1(chan: Chan)
      modifies this`procs
      ensures procs == Woken(old(procs), chan)
    {
      var i := 0;
      while i < |procs|
        invariant 0 <= i <= |procs| == |old(procs)|
        invariant forall j :: 0 <= j < i ==> procs[j] == Wake(old(procs)[j], chan)
        invariant forall j :: i <= j < |procs| ==> procs[j] == old(procs)[j]
      {
        if procs[i].state == SLEEPING && procs[i].chan == chan {
          procs := procs[i := procs[i].(state := RUNNABLE)];
        }
        i := i + 1;
      }
    }

    /** The table after the reparenting loop of exit has passed n slots. */
    ghost function Passed(ps: seq<Proc>, me: nat, n: nat): seq<Proc>
    {
      var ps2 := AdoptedUpTo(ps, me, init, n);
      if ZombieChildBelow(ps, me, n) then Woken(ps2, Slot(init)) else ps2
    }

    /** One turn of the loop. */
    lemma {:induction false} PassedStep(ps: seq<Proc>, me: nat, n: nat)
      requires n < |ps|
      ensures |Passed(ps, me, n)| == |ps|
      ensures Passed(ps, me, n)[n].parent == ps[n].parent
      ensures Passed(ps, me, n)[n].state == ZOMBIE <==> ps[n].state == ZOMBIE
      ensures ps[n].parent != Some(me) ==> Passed(ps, me, n + 1) == Passed(ps, me, n)
      ensures ps[n].parent == Some(me) ==>
                var q := Passed(ps, me, n)[n := Passed(ps, me, n)[n].(parent := Some(init))];
                Passed(ps, me, n + 1) == if ps[n].state == ZOMBIE then Woken(q, Slot(init)) else q
    {
      ZombieStep(ps, me, n);
      var was, now := Passed(ps, me, n), Passed(ps, me, n + 1);
      if ps[n].parent == Some(me) {
        var q := was[n := was[n].(parent := Some(init))];
        if ps[n].state == ZOMBIE { assert now == Woken(q, Slot(init)); } else { assert now == q; }
      } else {
        assert now == was;
      }
    }

    /** exit: the loops over the table, then the process becomes a zombie. */
    method Exit(me: nat, ticks: nat)
      requires me < |procs|
      modifies this`procs
      ensures procs == Abandoned(old(procs), me, init)[me := Died(Abandoned(old(procs), me, init)[me], ticks)]
    {
      Wakeup1(ParentChan(procs[me]));
      ghost var ps := procs;
      WokenZombies(old(procs), ParentChan(procs[me]), me);
      var i := 0;
      assert procs == Passed(ps, me, 0);
      while i < |procs|
        invariant 0 <= i <= |procs| == |ps|
        invariant procs == Passed(ps, me, i)
      {
        PassedStep(ps, me, i);
        if procs[i].parent == Some(me) {
          procs := procs[i := procs[i].(parent := Some(init))];
          if procs[i].state == ZOMBIE {
            Wakeup1(Slot(init));
          }
        }
        i := i + 1;
      }
      procs := procs[me := Died(procs[me], ticks)];
    }

    /** One round of the loop in wait and waitx. */
    method Wait(me: nat) returns (r: Waited)
      requires me < |procs|
      modifies this`procs
      ensures (procs, r) == WaitScan(old(procs), me)
    {
      var havekids := false;
      var i := 0;
      while i < |procs|
        invariant 0 <= i <= |procs| && procs == old(procs)
        invariant havekids <==> exists j :: 0 <= j < i && procs[j].parent == Some(me)
        invariant FirstZombie(procs, me, 0) == FirstZombie(procs, me, i)
      {
        if procs[i].parent == Some(me) {
          havekids := true;
          if procs[i].state == ZOMBIE {
            var p := procs[i];
            r := Reaped(p.pid, p.etime - p.ctime - p.rtime - p.iotime, p.rtime);
            procs := procs[i := p.(state := UNUSED, pid := 0, parent := None, killed := false)];
            return;
          }
        }
        i := i + 1;
      }
      if !havekids || procs[me].killed {
        return NoChild;
      }
      procs := procs[me := procs[me].(chan := Slot(me), state := SLEEPING, frame := InWait)];
      return Sleeps;
    }

    /** allocproc's search: the first UNUSED slot becomes an EMBRYO with a new pid. */
    method AllocProc() returns (np: Option<nat>)
      modifies this`procs, this`nextpid
      ensures var z := FirstUnused(old(procs), 0);
              if z < |old(procs)| then np == Some(z) && procs == old(procs)[z := Embryo(old(procs)[z], old(nextpid))]
                  && nextpid == old(nextpid) + 1
              else np == None && procs == old(procs) && nextpid == old(nextpid)
    {
      var i := 0;
      while i < |procs|
        invariant 0 <= i <= |procs| && procs == old(procs) && nextpid == old(nextpid)
        invariant FirstUnused(procs, 0) == FirstUnused(procs, i)
      {
        if procs[i].state == UNUSED {
          procs := procs[i := procs[i].(state := EMBRYO, pid := nextpid)];
          nextpid := nextpid + 1;
          return Some(i);
        }
        i := i + 1;
      }
      return None;
    }

    method Kill(pid: nat) returns (ok: bool)
      modifies this`procs
      ensures var z := FirstPid(old(procs), pid, 0);
              ok == (z < |old(procs)|) && procs == if ok then old(procs)[z := Kill1(old(procs)[z])] else old(procs)
    {
      var i := 0;
      while i < |procs|
        invariant 0 <= i <= |procs| && procs == old(procs)
        invariant FirstPid(procs, pid, 0) == FirstPid(procs, pid, i)
      {
        if procs[i].pid == pid {
          procs := procs[i := procs[i].(killed := true)];
          if procs[i].state == SLEEPING {
            procs := procs[i := procs[i].(state := RUNNABLE)];
          }
          return true;
        }
        i := i + 1;
      }
      return false;
    }
  }

  lemma {:induction false} ZombieStep(ps: seq<Proc>, me: nat, n: nat)
    requires n < |ps|
    ensures ZombieChildBelow(ps, me, n + 1) <==> ZombieChildBelow(ps, me, n) || ZombieChild(ps, me, n)
  {
    if ZombieChildBelow(ps, me, n) {
      var z: nat :| z < n && ZombieChild(ps, me, z);
      assert z < n + 1;
    }
  }

  /** Waking sleepers makes no zombie and unmakes none. */
  lemma {:induction false} WokenZombies(ps: seq<Proc>, chan: Chan, me: nat)
    ensures ZombieChildBelow(Woken(ps, chan), me, |ps|) <==> ZombieChildBelow(ps, me, |ps|)
  {
    var r := Woken(ps, chan);
    if ZombieChildBelow(ps, me, |ps|) {
      var z: nat :| z < |ps| && ZombieChild(ps, me, z);
      assert ZombieChild(r, me, z);
    }
    if ZombieChildBelow(r, me, |ps|) {
      var z: nat :| z < |ps| && ZombieChild(r, me, z);
      assert ZombieChild(ps, me, z);
    }
  }
}
