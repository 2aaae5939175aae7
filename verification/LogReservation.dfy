/** Admission to the log (log.c). */
module LogReservation {
  // begin_op, end_op and the checks of log_write as an interleaving of processes, each step one critical section of
  // log.lock.

  import opened Params

  /** Where a process stands. `left` counts the log_write calls it may still make in this operation. */
  datatype Op =
    | Idle
    | Trying                 // in begin_op's loop, about to test
    | Asleep                 // in begin_op's sleep(&log, &log.lock)
    | Running(left: nat)     // between begin_op and end_op
    | Checked(left: nat)     // in log_write, past the size checks, before it takes the lock
    | Committing             // in end_op, running commit()
    | Erased                 // in end_op, after commit()

  datatype State = State(n: nat, outstanding: int, committing: bool, ops: seq<Op>, panicked: bool)

  datatype Step =
    | Enter(p: nat)              // begin_op called
    | Test(p: nat)               // one turn of begin_op's loop
    | Check(p: nat)              // log_write's tests, made without the lock
    | Append(p: nat, added: bool)  // log_write's critical section; `added` unless absorbed
    | End(p: nat)                // end_op's first critical section
    | Erase(p: nat)              // commit(), which sets lh.n to 0
    | Finish(p: nat)             // end_op's last critical section

  /** begin_op sleeps instead of admitting the operation (log.c:129-133). */
  predicate MustWait(n: nat, outstanding: int, committing: bool) {
    committing || n + (outstanding + 1) * MAXOPBLOCKS > LOGSIZE
  }

  /** log_write's size panic (log.c:215). */
  predicate TooBig(n: nat, size: nat) { n >= LOGSIZE || n >= size - 1 }

  /** wakeup(&log). */
  function Wake(ops: seq<Op>): (r: seq<Op>)
    ensures |r| == |ops| && forall i :: 0 <= i < |ops| ==> r[i] == if ops[i].Asleep? then Trying else ops[i]
  {
    seq(|ops|, i requires 0 <= i < |ops| => if ops[i].Asleep? then Trying else ops[i])
  }

  predicate Enabled(s: State, t: Step) {
    && !s.panicked && t.p < |s.ops|
    && match t
       case Enter(p) => s.ops[p].Idle?
       case Test(p) => s.ops[p].Trying?
       case Check(p) => s.ops[p].Running? && s.ops[p].left > 0
       case Append(p, _) => s.ops[p].Checked?
       case End(p) => s.ops[p].Running?
       case Erase(p) => s.ops[p].Committing?
       case Finish(p) => s.ops[p].Erased?
  }

  /** A step on a log region of `size` blocks, where an operation makes at most m log_write calls. */
  function Next(s: State, t: Step, size: nat, m: nat): State
    requires Enabled(s, t)
  {
    match t
    case Enter(p) => s.(ops := s.ops[p := Trying])
    case Test(p) =>
      if MustWait(s.n, s.outstanding, s.committing) then s.(ops := s.ops[p := Asleep])
      else s.(ops := s.ops[p := Running(m)], outstanding := s.outstanding + 1)
    case Check(p) =>
      if TooBig(s.n, size) || s.outstanding < 1 then s.(panicked := true)
      else s.(ops := s.ops[p := Checked(s.ops[p].left)])
    case Append(p, added) =>
      var left := if s.ops[p].left > 0 then s.ops[p].left - 1 else 0;
      s.(ops := s.ops[p := Running(left)], n := if added then s.n + 1 else s.n)
    case End(p) =>
      var o := s.outstanding - 1;
      if s.committing then s.(outstanding := o, panicked := true)
      else if o == 0 then s.(outstanding := o, committing := true, ops := s.ops[p := Committing])
      else s.(outstanding := o, ops := Wake(s.ops[p := Idle]))
    case Erase(p) => s.(n := 0, ops := s.ops[p := Erased])
    case Finish(p) => s.(committing := false, ops := Wake(s.ops[p := Idle]))
  }

  // ----- counting -----

  function LeftOf(o: Op): nat { if o.Running? || o.Checked? then o.left else 0 }
  function ActiveOf(o: Op): nat { if o.Running? || o.Checked? then 1 else 0 }
  function CommitOf(o: Op): nat { if o.Committing? || o.Erased? then 1 else 0 }

  function Sum(ops: seq<Op>, f: Op -> nat, k: nat): nat
    requires k <= |ops|
  {
    if k == 0 then 0 else Sum(ops, f, k - 1) + f(ops[k-1])
  }

  lemma {:induction false} SumUpdate(ops: seq<Op>, f: Op -> nat, k: nat, p: nat, o: Op)
    requires k <= |ops| && p < |ops|
    ensures Sum(ops[p := o], f, k) == if p < k then Sum(ops, f, k) - f(ops[p]) + f(o) else Sum(ops, f, k)
  {
    if k > 0 { SumUpdate(ops, f, k - 1, p, o); }
  }

  lemma {:induction false} SumSame(x: seq<Op>, y: seq<Op>, f: Op -> nat, k: nat)
    requires k <= |x| == |y| && forall i :: 0 <= i < |x| ==> f(x[i]) == f(y[i])
    ensures Sum(x, f, k) == Sum(y, f, k)
  {
    if k > 0 { SumSame(x, y, f, k - 1); }
  }

  lemma {:induction false} SumAtLeast(ops: seq<Op>, f: Op -> nat, k: nat, p: nat)
    requires p < k <= |ops|
    ensures f(ops[p]) <= Sum(ops, f, k)
  {
    if p < k - 1 { SumAtLeast(ops, f, k - 1, p); }
  }

  lemma {:induction false} SumZero(ops: seq<Op>, f: Op -> nat, k: nat)
    requires k <= |ops| && Sum(ops, f, k) == 0
    ensures forall i :: 0 <= i < k ==> f(ops[i]) == 0
  {
    if k > 0 { SumZero(ops, f, k - 1); }
  }

  function Total(ops: seq<Op>, f: Op -> nat): nat { Sum(ops, f, |ops|) }

  function CheckedOf(o: Op): nat { if o.Checked? then 1 else 0 }

  /** The totals after one process moves. */
  lemma {:induction false} Move(ops: seq<Op>, p: nat, o: Op)
    requires p < |ops|
    ensures Total(ops[p := o], ActiveOf) == Total(ops, ActiveOf) - ActiveOf(ops[p]) + ActiveOf(o)
    ensures Total(ops[p := o], CommitOf) == Total(ops, CommitOf) - CommitOf(ops[p]) + CommitOf(o)
    ensures Total(ops[p := o], LeftOf) == Total(ops, LeftOf) - LeftOf(ops[p]) + LeftOf(o)
    ensures Total(ops[p := o], CheckedOf) == Total(ops, CheckedOf) - CheckedOf(ops[p]) + CheckedOf(o)
  {
    SumUpdate(ops, ActiveOf, |ops|, p, o);
    SumUpdate(ops, CommitOf, |ops|, p, o);
    SumUpdate(ops, LeftOf, |ops|, p, o);
    SumUpdate(ops, CheckedOf, |ops|, p, o);
  }

  lemma {:induction false} WakeTotals(ops: seq<Op>)
    ensures Total(Wake(ops), ActiveOf) == Total(ops, ActiveOf)
    ensures Total(Wake(ops), CommitOf) == Total(ops, CommitOf)
    ensures Total(Wake(ops), LeftOf) == Total(ops, LeftOf)
    ensures Total(Wake(ops), CheckedOf) == Total(ops, CheckedOf)
  {
    SumSame(Wake(ops), ops, ActiveOf, |ops|);
    SumSame(Wake(ops), ops, CommitOf, |ops|);
    SumSame(Wake(ops), ops, LeftOf, |ops|);
    SumSame(Wake(ops), ops, CheckedOf, |ops|);
  }

  lemma {:induction false} AtMost(ops: seq<Op>, p: nat)
    requires p < |ops|
    ensures ActiveOf(ops[p]) <= Total(ops, ActiveOf)
    ensures CommitOf(ops[p]) <= Total(ops, CommitOf)
    ensures LeftOf(ops[p]) <= Total(ops, LeftOf)
    ensures CheckedOf(ops[p]) <= Total(ops, CheckedOf)
  {
    SumAtLeast(ops, ActiveOf, |ops|, p);
    SumAtLeast(ops, CommitOf, |ops|, p);
    SumAtLeast(ops, LeftOf, |ops|, p);
    SumAtLeast(ops, CheckedOf, |ops|, p);
  }

  lemma {:induction false} SumBound(ops: seq<Op>, m: nat, k: nat)
    requires k <= |ops| && forall p :: 0 <= p < |ops| ==> LeftOf(ops[p]) <= m
    ensures Sum(ops, LeftOf, k) <= m * Sum(ops, ActiveOf, k)
  {
    if k > 0 {
      SumBound(ops, m, k - 1);
      if ActiveOf(ops[k-1]) == 1 { assert m * (Sum(ops, ActiveOf, k - 1) + 1) == m * Sum(ops, ActiveOf, k - 1) + m; }
    }
  }

  lemma {:induction false} CheckedActive(ops: seq<Op>, k: nat)
    requires k <= |ops|
    ensures Sum(ops, CheckedOf, k) <= Sum(ops, ActiveOf, k)
  {
    if k > 0 { CheckedActive(ops, k - 1); }
  }

  // ----- the invariant -----

  /** What the log can hold if an operation makes m log_write calls: at most three operations are admitted to an empty
      log, and two once MAXOPBLOCKS blocks are in it. */
  function Most(m: nat): nat { if m <= MAXOPBLOCKS then MAXOPBLOCKS + 2 * m else 3 * m }

  /** RESERVATION: what is in the log and what the operations in progress may still add is bounded. A commit runs alone
      and only with no operation in progress, and a process asleep in begin_op has someone left to wake it. */
  ghost predicate Inv(s: State, m: nat) {
    && s.outstanding == Total(s.ops, ActiveOf) <= 3
    && Total(s.ops, CommitOf) == (if s.committing then 1 else 0)
    && s.n + Total(s.ops, LeftOf) <= Most(m)
    && (forall p :: 0 <= p < |s.ops| ==> LeftOf(s.ops[p]) <= m)
    && (s.committing ==> s.outstanding == 0)
    && (!s.committing && s.outstanding == 0 ==> s.n == 0)
    && (forall p :: 0 <= p < |s.ops| && s.ops[p].Checked? ==> s.ops[p].left > 0)
    && (forall p :: 0 <= p < |s.ops| && s.ops[p].Erased? ==> s.n == 0)
    && (forall p :: 0 <= p < |s.ops| && s.ops[p].Asleep? ==> s.committing || s.outstanding > 0)
  }

  /** The only step that can panic is log_write's size test. */
  predicate SizePanic(s: State, t: Step, size: nat) { t.Check? && TooBig(s.n, size) }

  /** Three times m for an empty log, twice with MAXOPBLOCKS in it. */
  lemma {:induction false} Admits(n: nat, o: nat, left: nat, m: nat)
    requires n + (o + 1) * MAXOPBLOCKS <= LOGSIZE && left <= m * o && (o == 0 ==> n == 0)
    ensures o <= 2 && n + left + m <= Most(m)
  {
    assert o == 0 || o == 1 || o == 2;
    assert m * 0 == 0 && m * 1 == m && m * 2 == m + m;
  }

  lemma {:induction false} BeginKeepsInv(s: State, t: Step, size: nat, m: nat)
    requires Inv(s, m) && Enabled(s, t) && (t.Enter? || t.Test?)
    ensures Inv(Next(s, t, size, m), m) && !Next(s, t, size, m).panicked
  {
    var p := t.p;
    SumBound(s.ops, m, |s.ops|);
    if t.Enter? {
      Move(s.ops, p, Trying);
    } else if MustWait(s.n, s.outstanding, s.committing) {
      Move(s.ops, p, Asleep);
    } else {
      Admits(s.n, s.outstanding, Total(s.ops, LeftOf), m);
      Move(s.ops, p, Running(m));
    }
  }

  lemma {:induction false} LogWriteKeepsInv(s: State, t: Step, size: nat, m: nat)
    requires Inv(s, m) && Enabled(s, t) && (t.Check? || t.Append?)
    ensures Inv(Next(s, t, size, m), m) && (Next(s, t, size, m).panicked <==> SizePanic(s, t, size))
  {
    var p := t.p;
    AtMost(s.ops, p);
    SumZero(s.ops, CommitOf, |s.ops|);
    Move(s.ops, p, Checked(s.ops[p].left));
    Move(s.ops, p, Running(s.ops[p].left - 1));
  }

  lemma {:induction false} EndKeepsInv(s: State, t: Step, size: nat, m: nat)
    requires Inv(s, m) && Enabled(s, t) && t.End?
    ensures Inv(Next(s, t, size, m), m) && !Next(s, t, size, m).panicked
  {
    var p := t.p;
    AtMost(s.ops, p);
    SumZero(s.ops, CommitOf, |s.ops|);
    Move(s.ops, p, Committing);
    Move(s.ops, p, Idle);
    WakeTotals(s.ops[p := Idle]);
  }

  lemma {:induction false} CommitKeepsInv(s: State, t: Step, size: nat, m: nat)
    requires Inv(s, m) && Enabled(s, t) && (t.Erase? || t.Finish?)
    ensures Inv(Next(s, t, size, m), m) && !Next(s, t, size, m).panicked
  {
    var p := t.p;
    AtMost(s.ops, p);
    SumBound(s.ops, m, |s.ops|);
    assert m * 0 == 0;
    Move(s.ops, p, Erased);
    Move(s.ops, p, Idle);
    WakeTotals(s.ops[p := Idle]);
    var r := Next(s, t, size, m);
    if t.Finish? { SumZero(r.ops, CommitOf, |r.ops|); }
  }

  /** Every step keeps the invariant, and it panics exactly in log_write's size test. */
  lemma {:induction false} StepKeepsInv(s: State, t: Step, size: nat, m: nat)
    requires Inv(s, m) && Enabled(s, t)
    ensures Inv(Next(s, t, size, m), m) && (Next(s, t, size, m).panicked <==> SizePanic(s, t, size))
  {
    hide Inv;
    hide Next;
    hide Enabled;
    match t {
      case Enter(_) => BeginKeepsInv(s, t, size, m);
      case Test(_) => BeginKeepsInv(s, t, size, m);
      case Check(_) => LogWriteKeepsInv(s, t, size, m);
      case Append(_, _) => LogWriteKeepsInv(s, t, size, m);
      case End(_) => EndKeepsInv(s, t, size, m);
      case Erase(_) => CommitKeepsInv(s, t, size, m);
      case Finish(_) => CommitKeepsInv(s, t, size, m);
    }
  }

  // ----- runs -----

  function Initial(procs: nat): State {
    State(0, 0, false, seq(procs, _ => Idle), false)
  }

  /** The state after the first k steps of a schedule; a step whose process is not there yet is skipped. */
  ghost function After(s: State, sched: nat -> Step, size: nat, m: nat, k: nat): State
  {
    if k == 0 then s else
      var r := After(s, sched, size, m, k - 1);
      if Enabled(r, sched(k - 1)) then Next(r, sched(k - 1), size, m) else r
  }

  lemma {:induction false} InitialTotals(s: State, k: nat)
    requires k <= |s.ops| && forall i :: 0 <= i < |s.ops| ==> s.ops[i].Idle?
    ensures Sum(s.ops, ActiveOf, k) == Sum(s.ops, CommitOf, k) == Sum(s.ops, LeftOf, k) == Sum(s.ops, CheckedOf, k) == 0
  {
    if k > 0 { InitialTotals(s, k - 1); }
  }

  /** LOG RESERVATION. In every interleaving of any number of processes whose operations each make at most m log_write
      calls, on a log region of any size: the log and all unspent reservations keep to the bound Most(m), at most three
      operations are in progress, a commit runs alone and only with no operation in progress, and a process asleep in
      begin_op has someone left to wake it. */
  lemma {:induction false} ReservationHolds(procs: nat, sched: nat -> Step, size: nat, m: nat, k: nat)
    ensures Inv(After(Initial(procs), sched, size, m, k), m)
  {
    hide Inv;
    hide Next;
    hide Enabled;
    if k == 0 {
      StartInv(procs, m);
    } else {
      ReservationHolds(procs, sched, size, m, k - 1);
      var s, t := After(Initial(procs), sched, size, m, k - 1), sched(k - 1);
      if Enabled(s, t) { StepKeepsInv(s, t, size, m); }
    }
  }

  lemma {:induction false} StartInv(procs: nat, m: nat)
    ensures Inv(Initial(procs), m)
  {
    InitialTotals(Initial(procs), procs);
  }

  /** A region and a number of log_write calls for which the reservation is enough. */
  predicate Enough(m: nat, size: nat) { m == 0 || (m <= MAXOPBLOCKS && size >= MAXOPBLOCKS + 2 * m + 1) }

  lemma {:induction false} NoSizePanic(s: State, t: Step, size: nat, m: nat)
    requires Inv(s, m) && Enabled(s, t) && Enough(m, size)
    ensures !SizePanic(s, t, size)
  {
    AtMost(s.ops, t.p);
  }

  /** With enough room no panic is reached. */
  lemma {:induction false} NeverPanics(procs: nat, sched: nat -> Step, size: nat, m: nat, k: nat)
    requires Enough(m, size)
    ensures !After(Initial(procs), sched, size, m, k).panicked
  {
    hide Inv;
    hide Next;
    hide Enabled;
    if k > 0 {
      NeverPanics(procs, sched, size, m, k - 1);
      ReservationHolds(procs, sched, size, m, k - 1);
      var s, t := After(Initial(procs), sched, size, m, k - 1), sched(k - 1);
      if Enabled(s, t) {
        StepKeepsInv(s, t, size, m);
        NoSizePanic(s, t, size, m);
      }
    }
  }

  // ----- operations that use their reservation, or more -----

  /** Three operations begin, then log distinct blocks, ten each. */
  function Filling(k: nat): Step {
    if k < 6 then (if k % 2 == 0 then Enter(k / 2) else Test(k / 2))
    else if k % 2 == 0 then Check(Writer((k - 6) / 2)) else Append(Writer((k - 6) / 2), true)
  }

  /** Who logs block j. */
  function Writer(j: nat): nat { if j < 10 then 0 else if j < 20 then 1 else 2 }

  /** The three processes after j blocks have been logged. */
  function Filled(m: nat, j: nat): State
    requires m >= MAXOPBLOCKS && j <= LOGSIZE
  {
    var left := (p: nat) requires p < 3 => if j <= 10 * p then m else if j >= 10 * (p + 1) then m - 10
        else m + 10 * p - j;
    State(j, 3, false, [Running(left(0)), Running(left(1)), Running(left(2))], false)
  }

  lemma {:induction false} Opened(size: nat, m: nat)
    requires m >= MAXOPBLOCKS
    ensures After(Initial(3), Filling, size, m, 6) == Filled(m, 0)
  {
    var s := Initial(3);
    assert s.ops == [Idle, Idle, Idle];
    assert After(s, Filling, size, m, 1).ops == [Trying, Idle, Idle];
    assert After(s, Filling, size, m, 2).ops == [Running(m), Idle, Idle];
    assert After(s, Filling, size, m, 3).ops == [Running(m), Trying, Idle];
    assert After(s, Filling, size, m, 4).ops == [Running(m), Running(m), Idle];
    assert After(s, Filling, size, m, 5).ops == [Running(m), Running(m), Trying];
    assert After(s, Filling, size, m, 6).ops == [Running(m), Running(m), Running(m)];
  }

  lemma {:induction false} FillOne(size: nat, m: nat, j: nat)
    requires m >= MAXOPBLOCKS && j < LOGSIZE && j < size - 1
    ensures Enabled(Filled(m, j), Check(Writer(j)))
    ensures var s := Next(Filled(m, j), Check(Writer(j)), size, m);
            Enabled(s, Append(Writer(j), true)) && Next(s, Append(Writer(j), true), size, m) == Filled(m, j + 1)
  {
    var s := Next(Filled(m, j), Check(Writer(j)), size, m);
    assert Next(s, Append(Writer(j), true), size, m).ops == Filled(m, j + 1).ops;
  }

  lemma {:induction false} FillsUp(size: nat, m: nat, j: nat)
    requires m >= MAXOPBLOCKS && j <= LOGSIZE && (j == 0 || j <= size - 1)
    ensures After(Initial(3), Filling, size, m, 6 + 2 * j) == Filled(m, j)
  {
    hide Next;
    hide Enabled;
    hide Filled;
    hide Writer;
    if j == 0 {
      Opened(size, m);
    } else {
      FillsUp(size, m, j - 1);
      FillOne(size, m, j - 1);
      var k := 6 + 2 * (j - 1);
      assert (k - 6) / 2 == j - 1 && (k + 1 - 6) / 2 == j - 1 && k % 2 == 0;
      assert After(Initial(3), Filling, size, m, k + 2) == Filled(m, j);
    }
  }

  /** Where log_write first finds the log too big. */
  function Limit(size: nat): nat { if size == 0 then 0 else if size - 1 < LOGSIZE then size - 1 else LOGSIZE }

  lemma {:induction false} FilledPanics(size: nat, m: nat)
    requires m > MAXOPBLOCKS || (m == MAXOPBLOCKS && size < LOGSIZE + 1)
    ensures After(Initial(3), Filling, size, m, 6 + 2 * Limit(size) + 1).panicked
  {
    hide Next;
    hide Enabled;
    hide Filled;
    var j := Limit(size);
    FillsUp(size, m, j);
    FullPanics(size, m);
    assert (6 + 2 * j - 6) / 2 == j && (6 + 2 * j) % 2 == 0;
  }

  lemma {:induction false} FullPanics(size: nat, m: nat)
    requires m > MAXOPBLOCKS || (m == MAXOPBLOCKS && size < LOGSIZE + 1)
    ensures var s := Filled(m, Limit(size));
            Enabled(s, Check(Writer(Limit(size)))) && Next(s, Check(Writer(Limit(size))), size, m).panicked
  {}

  // ----- operations that keep below their reservation -----

  /** A process begins and waits. Another logs one block in each of ten operations, and m in an eleventh; then the first
      logs m. */
  function Sharing(m: nat, k: nat): Step {
    if k < 4 then (if k % 2 == 0 then Enter(k / 2) else Test(k / 2))
    else if k < 54 then
      var i := (k - 4) % 5;
      if i == 0 then Check(1) else if i == 1 then Append(1, true) else if i == 2 then End(1)
      else if i == 3 then Enter(1) else Test(1)
    else
      var p := if (k - 54) / 2 < m then 1 else 0;
      if k % 2 == 0 then Check(p) else Append(p, true)
  }

  /** When block j is about to be logged: the step, and the state. */
  function Turn(j: nat): nat { if j <= 10 then 4 + 5 * j else 54 + 2 * (j - 10) }

  function Shared(m: nat, j: nat): State
    requires j <= MAXOPBLOCKS + 2 * m
  {
    var b := if j <= 10 then m else if j <= 10 + m then m + 10 - j else 0;
    var a := if j <= 10 + m then m else 10 + 2 * m - j;
    State(j, 2, false, [Running(a), Running(b)], false)
  }

  function ShareSched(m: nat): nat -> Step { (k: nat) => Sharing(m, k) }

  lemma {:induction false} SharedStarts(size: nat, m: nat)
    ensures After(Initial(2), ShareSched(m), size, m, 4) == Shared(m, 0)
  {
    var s, sched := Initial(2), ShareSched(m);
    assert s.ops == [Idle, Idle];
    assert After(s, sched, size, m, 1).ops == [Trying, Idle];
    assert After(s, sched, size, m, 2).ops == [Running(m), Idle];
    assert After(s, sched, size, m, 3).ops == [Running(m), Trying];
    assert After(s, sched, size, m, 4).ops == [Running(m), Running(m)];
  }

  /** One more step. */
  lemma {:induction false} Goes(s0: State, sched: nat -> Step, size: nat, m: nat, k: nat, s: State, t: Step)
    requires After(s0, sched, size, m, k) == s && sched(k) == t && Enabled(s, t)
    ensures After(s0, sched, size, m, k + 1) == Next(s, t, size, m)
  {}

  lemma {:induction false} ShareSteps(m: nat, j: nat)
    requires j < 10
    ensures var k, f := Turn(j), ShareSched(m);
            f(k) == Check(1) && f(k + 1) == Append(1, true) && f(k + 2) == End(1) && f(k + 3) == Enter(1)
                && f(k + 4) == Test(1)
  {
    assert 5 * j % 5 == 0 && (5 * j + 1) % 5 == 1 && (5 * j + 2) % 5 == 2 && (5 * j + 3) % 5 == 3;
  }

  /** The j-th block, in an operation of its own. */
  lemma {:induction false} ShareOne(size: nat, m: nat, j: nat)
    requires 1 <= m <= MAXOPBLOCKS && j < 10 && j < size - 1
    requires After(Initial(2), ShareSched(m), size, m, Turn(j)) == Shared(m, j)
    ensures After(Initial(2), ShareSched(m), size, m, Turn(j + 1)) == Shared(m, j + 1)
  {
    hide After;
    hide ShareSched;
    var k, sched := Turn(j), ShareSched(m);
    ShareSteps(m, j);
    var s0 := Shared(m, j);
    Goes(Initial(2), sched, size, m, k, s0, Check(1));
    var s1 := s0.(ops := [Running(m), Checked(m)]);
    assert Next(s0, Check(1), size, m) == s1;
    Goes(Initial(2), sched, size, m, k + 1, s1, Append(1, true));
    var s2 := s0.(n := j + 1, ops := [Running(m), Running(m - 1)]);
    assert Next(s1, Append(1, true), size, m) == s2;
    Goes(Initial(2), sched, size, m, k + 2, s2, End(1));
    var s3 := s2.(outstanding := 1, ops := [Running(m), Idle]);
    assert Wake([Running(m), Idle]) == [Running(m), Idle];
    assert Next(s2, End(1), size, m) == s3;
    Goes(Initial(2), sched, size, m, k + 3, s3, Enter(1));
    var s4 := s3.(ops := [Running(m), Trying]);
    assert Next(s3, Enter(1), size, m) == s4;
    Goes(Initial(2), sched, size, m, k + 4, s4, Test(1));
    assert Next(s4, Test(1), size, m) == Shared(m, j + 1);
  }

  /** The j-th block, in one of the last two operations. */
  lemma {:induction false} ShareLast(size: nat, m: nat, j: nat)
    requires 1 <= m <= MAXOPBLOCKS && 10 <= j < MAXOPBLOCKS + 2 * m && j < LOGSIZE && j < size - 1
    requires After(Initial(2), ShareSched(m), size, m, Turn(j)) == Shared(m, j)
    ensures After(Initial(2), ShareSched(m), size, m, Turn(j + 1)) == Shared(m, j + 1)
  {
    hide After;
    var k, sched, p := Turn(j), ShareSched(m), if j - 10 < m then 1 else 0;
    assert (k - 54) / 2 == j - 10 && (k + 1 - 54) / 2 == j - 10 && k % 2 == 0;
    var s0 := Shared(m, j);
    Goes(Initial(2), sched, size, m, k, s0, Check(p));
    Goes(Initial(2), sched, size, m, k + 1, Next(s0, Check(p), size, m), Append(p, true));
    assert Next(Next(s0, Check(p), size, m), Append(p, true), size, m).ops == Shared(m, j + 1).ops;
  }

  lemma {:induction false} SharesUp(size: nat, m: nat, j: nat)
    requires 1 <= m < MAXOPBLOCKS && j < MAXOPBLOCKS + 2 * m && (j == 0 || j <= size - 1)
    ensures After(Initial(2), ShareSched(m), size, m, Turn(j)) == Shared(m, j)
  {
    hide After;
    hide Shared;
    if j == 0 {
      SharedStarts(size, m);
    } else {
      SharesUp(size, m, j - 1);
      if j - 1 < 10 { ShareOne(size, m, j - 1); } else { ShareLast(size, m, j - 1); }
    }
  }

  lemma {:induction false} SharedPanics(size: nat, m: nat)
    requires 1 <= m < MAXOPBLOCKS && size < MAXOPBLOCKS + 2 * m + 1
    ensures After(Initial(2), ShareSched(m), size, m, Turn(Limit(size)) + 1).panicked
  {
    hide After;
    var j := Limit(size);
    SharesUp(size, m, j);
    var k, p := Turn(j), if j < 10 + m then 1 else 0;
    assert j >= 10 ==> (k - 54) / 2 == j - 10 && k % 2 == 0;
    assert j < 10 ==> (k - 4) % 5 == 0;
    Goes(Initial(2), ShareSched(m), size, m, k, Shared(m, j), Check(p));
  }

  /** EXACTLY WHEN LOG_WRITE PANICS. On a region of `size` blocks some schedule of operations that make at most m
      log_write calls each reaches a panic if and only if the reservation is not enough: more than MAXOPBLOCKS calls are
      too many on every region, and fewer need room for two operations beside the MAXOPBLOCKS blocks that others may
      have logged. At m == MAXOPBLOCKS that is LOGSIZE + 1 blocks, one more than mkfs makes (mkfs.c:25). A chunk of
      filewrite logs up to LOGSIZE blocks (file.c:132). */
  lemma {:induction false} SizePanicReachable(m: nat, size: nat)
    ensures (exists procs: nat, sched: nat -> Step, k: nat :: After(Initial(procs), sched, size, m, k).panicked)
            <==> m > MAXOPBLOCKS || (m > 0 && size < MAXOPBLOCKS + 2 * m + 1)
  {
    hide After;
    if Enough(m, size) {
      forall procs: nat, sched: nat -> Step, k: nat ensures !After(Initial(procs), sched, size, m, k).panicked {
        NeverPanics(procs, sched, size, m, k);
      }
    } else if m >= MAXOPBLOCKS {
      FilledPanics(size, m);
    } else {
      SharedPanics(size, m);
    }
  }

  // ----- the header's array -----

  /** log_write tests without the lock, so that the three operations in progress can pass the test together. */
  ghost predicate Bounded(s: State, size: nat) {
    s.n + Total(s.ops, CheckedOf) <= Limit(size) + 2 || (s.n == 0 && Total(s.ops, CheckedOf) == 0)
  }

  lemma {:induction false} StepBounded(s: State, t: Step, size: nat, m: nat)
    requires Inv(s, m) && Enabled(s, t) && Bounded(s, size)
    ensures Bounded(Next(s, t, size, m), size)
  {
    var p := t.p;
    AtMost(s.ops, p);
    CheckedActive(s.ops, |s.ops|);
    match t {
      case Enter(_) => Move(s.ops, p, Trying);
      case Test(_) => Move(s.ops, p, Asleep); Move(s.ops, p, Running(m));
      case Check(_) =>
        Move(s.ops, p, Checked(s.ops[p].left));
        CheckedActive(s.ops[p := Checked(s.ops[p].left)], |s.ops|);
      case Append(_, _) => Move(s.ops, p, Running(s.ops[p].left - 1));
      case End(_) => Move(s.ops, p, Committing); Move(s.ops, p, Idle); WakeTotals(s.ops[p := Idle]);
      case Erase(_) => Move(s.ops, p, Erased);
      case Finish(_) => Move(s.ops, p, Idle); WakeTotals(s.ops[p := Idle]);
    }
  }

  lemma {:induction false} RunBounded(procs: nat, sched: nat -> Step, size: nat, m: nat, k: nat)
    ensures Bounded(After(Initial(procs), sched, size, m, k), size)
  {
    hide Inv;
    hide Next;
    hide Enabled;
    if k == 0 {
      InitialTotals(Initial(procs), procs);
    } else {
      RunBounded(procs, sched, size, m, k - 1);
      ReservationHolds(procs, sched, size, m, k - 1);
      var s, t := After(Initial(procs), sched, size, m, k - 1), sched(k - 1);
      if Enabled(s, t) { StepBounded(s, t, size, m); }
    }
  }

  /** The three operations log 28 blocks, pass the test together, and log one more each. */
  function Racing(k: nat): Step {
    if k < 62 then Filling(k) else if k < 65 then Check(k - 62) else Append((k - 65) % 3, true)
  }

  lemma {:induction false} SameSchedule(s: State, f: nat -> Step, g: nat -> Step, size: nat, m: nat, k: nat)
    requires forall i: nat :: i < k ==> f(i) == g(i)
    ensures After(s, f, size, m, k) == After(s, g, size, m, k)
  {
    if k > 0 { SameSchedule(s, f, g, size, m, k - 1); }
  }

  lemma {:induction false} RaceOverruns(size: nat, m: nat)
    requires m > MAXOPBLOCKS && size >= LOGSIZE
    ensures After(Initial(3), Racing, size, m, 68).n == 31
  {
    hide After;
    var s0 := Initial(3);
    SameSchedule(s0, Racing, Filling, size, m, 62);
    FillsUp(size, m, 28);
    var s := State(28, 3, false, [Running(m - 10), Running(m - 10), Running(m - 8)], false);
    assert Filled(m, 28) == s;
    Goes(s0, Racing, size, m, 62, s, Check(0));
    s := s.(ops := [Checked(m - 10), Running(m - 10), Running(m - 8)]);
    Goes(s0, Racing, size, m, 63, s, Check(1));
    s := s.(ops := [Checked(m - 10), Checked(m - 10), Running(m - 8)]);
    Goes(s0, Racing, size, m, 64, s, Check(2));
    s := s.(ops := [Checked(m - 10), Checked(m - 10), Checked(m - 8)]);
    Goes(s0, Racing, size, m, 65, s, Append(0, true));
    s := s.(n := 29, ops := [Running(m - 11), Checked(m - 10), Checked(m - 8)]);
    Goes(s0, Racing, size, m, 66, s, Append(1, true));
    s := s.(n := 30, ops := [Running(m - 11), Running(m - 11), Checked(m - 8)]);
    Goes(s0, Racing, size, m, 67, s, Append(2, true));
  }

  /** EXACTLY WHEN THE HEADER OVERFLOWS. Some schedule stores past the end of the header's array of LOGSIZE block
      numbers if and only if operations may make more than MAXOPBLOCKS log_write calls and the region has LOGSIZE blocks
      or more. */
  lemma {:induction false} HeaderOverflows(m: nat, size: nat)
    ensures (exists procs: nat, sched: nat -> Step, k: nat :: After(Initial(procs), sched, size, m, k).n > LOGSIZE)
            <==> m > MAXOPBLOCKS && size >= LOGSIZE
  {
    hide After;
    if m > MAXOPBLOCKS && size >= LOGSIZE {
      RaceOverruns(size, m);
    } else {
      forall procs: nat, sched: nat -> Step, k: nat ensures After(Initial(procs), sched, size, m, k).n <= LOGSIZE {
        ReservationHolds(procs, sched, size, m, k);
        RunBounded(procs, sched, size, m, k);
      }
    }
  }
}
