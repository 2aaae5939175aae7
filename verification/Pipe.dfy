/** The pipe (pipe.c). */
module Pipe {
  // A ring buffer with 32-bit counters, and its readers and writers as interleaved steps.

  import opened Basics
  import opened Options

  const PIPESIZE: nat := 512

  /** What a pipe is to its users: `sent` are all bytes written so far, of which the first `got` were read. */
  datatype Stream = Stream(sent: seq<Byte>, got: nat, readopen: bool, writeopen: bool)

  /** How far a call gets before it returns or sleeps. */
  datatype Outcome = Done | Failed | Blocked

  ghost predicate Fits(s: Stream) { s.got <= |s.sent| <= s.got + PIPESIZE }

  /** pipewrite from addr[i] on, until it returns or sleeps: it writes what there is room for. */
  function WriteSeg(s: Stream, addr: seq<Byte>, i: nat, killed: bool): (r: (Stream, nat, Outcome))
    requires Fits(s) && i <= |addr|
    ensures Fits(r.0) && i <= r.1 <= |addr|
  {
    var k := Min(s.got + PIPESIZE - |s.sent|, |addr| - i);
    var out := if i + k == |addr| then Done else if !s.readopen || killed then Failed else Blocked;
    (s.(sent := s.sent + addr[i..i+k]), i + k, out)
  }

  /** piperead of up to n bytes, until it returns or sleeps. */
  function ReadSeg(s: Stream, n: nat, killed: bool): (r: (Stream, seq<Byte>, Outcome))
    requires Fits(s)
    ensures Fits(r.0)
  {
    if s.got == |s.sent| && s.writeopen then (s, [], if killed then Failed else Blocked)
    else
      var k := Min(n, |s.sent| - s.got);
      (s.(got := s.got + k), s.sent[s.got..s.got+k], Done)
  }

  // ----- the ring -----

  lemma {:induction false} WordMod(a: nat, q: nat, r: nat)
    requires r < UINT && a == q * UINT + r
    ensures a % UINT == r
  {}

  lemma {:induction false} PlaceMod(a: nat, q: nat, r: nat)
    requires r < PIPESIZE && a == q * PIPESIZE + r
    ensures a % PIPESIZE == r
  {}

  /** Two counts that differ by less than a word have equal remainders only if they are equal. */
  lemma {:induction false} WrapEqual(a: nat, b: nat)
    requires b <= a < b + UINT
    ensures a % UINT == b % UINT <==> a == b
  {
    var q, r := b / UINT, b % UINT;
    var c := r + (a - b);
    if c < UINT { WordMod(a, q, c); } else { WordMod(a, q + 1, c - UINT); }
  }

  lemma {:induction false} WrapStep(x: nat, k: nat)
    requires k <= UINT
    ensures (x % UINT + k) % UINT == (x + k) % UINT
  {
    var q, r := x / UINT, x % UINT;
    if r + k < UINT {
      WordMod(x + k, q, r + k);
      WordMod(r + k, 0, r + k);
    } else {
      WordMod(x + k, q + 1, r + k - UINT);
      WordMod(r + k, 1, r + k - UINT);
    }
  }

  /** A word is a multiple of PIPESIZE: the place in the ring is that of the true count. */
  lemma {:induction false} WrapPlace(x: nat)
    ensures x % UINT % PIPESIZE == x % PIPESIZE
  {
    var q, r := x / UINT, x % UINT;
    var q', r' := r / PIPESIZE, r % PIPESIZE;
    assert x == (q * 8388608 + q') * PIPESIZE + r';
    PlaceMod(x, q * 8388608 + q', r');
  }

  /** The 32-bit counters of the bytes sent and read. */
  predicate Counters(nwrite: nat, nread: nat, sent: nat, got: nat)
  {
    nwrite == sent % UINT && nread == got % UINT && got <= sent <= got + PIPESIZE
  }

  /** The writer's test and its step are right on the counters. */
  lemma {:induction false} WriterTests(nwrite: nat, nread: nat, sent: nat, got: nat)
    requires Counters(nwrite, nread, sent, got)
    ensures nwrite == (nread + PIPESIZE) % UINT <==> sent == got + PIPESIZE
    ensures nwrite % PIPESIZE == sent % PIPESIZE
    ensures (sent < got + PIPESIZE ==> Counters((nwrite + 1) % UINT, nread, sent + 1, got))
  {
    WrapEqual(got + PIPESIZE, sent);
    WrapStep(sent, 1);
    WrapStep(got, PIPESIZE);
    WrapPlace(sent);
  }

  /** So are the reader's. */
  lemma {:induction false} ReaderTests(nwrite: nat, nread: nat, sent: nat, got: nat)
    requires Counters(nwrite, nread, sent, got)
    ensures nread == nwrite <==> sent == got
    ensures nread % PIPESIZE == got % PIPESIZE && (got < sent ==> Counters(nwrite, (nread + 1) % UINT, sent, got + 1))
  {
    WrapEqual(sent, got);
    WrapStep(got, 1);
    WrapPlace(got);
  }

  /** Byte number k, sent and not read, is at place k modulo PIPESIZE. */
  ghost predicate Stored(data: seq<Byte>, sent: seq<Byte>, got: nat)
  {
    |data| == PIPESIZE && forall k :: got <= k < |sent| ==> data[k % PIPESIZE] == sent[k]
  }

  lemma {:induction false} NextStored(data: seq<Byte>, sent: seq<Byte>, got: nat)
    requires Stored(data, sent, got) && got < |sent|
    ensures got % PIPESIZE < |data| && data[got % PIPESIZE] == sent[got] && Stored(data, sent, got + 1)
  {}

  class Ring {
    const data: array<Byte>
    var nread: nat
    var nwrite: nat
    var readopen: bool
    var writeopen: bool
    ghost var sent: seq<Byte>
    ghost var got: nat

    ghost function S(): Stream
      reads this
    {
      Stream(sent, got, readopen, writeopen)
    }

    /** The ring holds the bytes that were sent and not read, each at its number modulo PIPESIZE. */
    ghost predicate Valid()
      reads this, data
    {
      && data.Length == PIPESIZE && Fits(S())
      && Counters(nwrite, nread, |sent|, got)
      && Stored(data[..], sent, got)
    }

    constructor ()
      ensures Valid() && S() == Stream([], 0, true, true)
    {
      data := new Byte[PIPESIZE];
      nread, nwrite, readopen, writeopen := 0, 0, true, true;
      sent, got := [], 0;
    }

    /** pipewrite with the lock held, up to the return or the sleep; the sleep ends the turn of the inner loop. */
    method Write(addr: seq<Byte>, start: nat, killed: bool) returns (i: nat, out: Outcome)
      requires Valid() && start <= |addr|
      modifies this, data
      ensures Valid() && (S(), i, out) == WriteSeg(old(S()), addr, start, killed)
    {
      hide Stored;
      hide Counters;
      i := start;
      ghost var k := Min(got + PIPESIZE - |sent|, |addr| - i);
      while i < |addr|
        invariant Valid() && start <= i <= start + k && start + k <= |addr|
        invariant got == old(got) && readopen == old(readopen) && writeopen == old(writeopen)
        invariant sent == old(sent) + addr[start..i]
      {
        WriterTests(nwrite, nread, |sent|, got);
        if nwrite == (nread + PIPESIZE) % UINT {
          return i, if !readopen || killed then Failed else Blocked;
        }
        RingStep(sent, got, data[..], addr[i]);
        ghost var was := data[..];
        data[nwrite % PIPESIZE] := addr[i];
        assert data[..] == was[|sent| % PIPESIZE := addr[i]];
        nwrite := (nwrite + 1) % UINT;
        sent := sent + [addr[i]];
        i := i + 1;
      }
      return i, Done;
    }

    /** piperead with the lock held, up to the return or the sleep. */
    method Read(n: nat, killed: bool) returns (addr: seq<Byte>, out: Outcome)
      requires Valid()
      modifies this
      ensures Valid() && (S(), addr, out) == ReadSeg(old(S()), n, killed)
    {
      hide Stored;
      hide Counters;
      ReaderTests(nwrite, nread, |sent|, got);
      if nread == nwrite && writeopen {
        return [], if killed then Failed else Blocked;
      }
      addr := [];
      var i := 0;
      while i < n
        invariant Valid() && i <= n && got == old(got) + i && addr == sent[old(got)..got]
        invariant sent == old(sent) && readopen == old(readopen) && writeopen == old(writeopen)
      {
        ReaderTests(nwrite, nread, |sent|, got);
        if nread == nwrite {
          break;
        }
        NextStored(data[..], sent, got);
        addr := addr + [data[nread % PIPESIZE]];
        nread := (nread + 1) % UINT;
        got := got + 1;
        i := i + 1;
      }
      return addr, Done;
    }

    /** pipeclose; the result says whether the pipe is freed. */
    method Close(writable: bool) returns (freed: bool)
      requires Valid()
      modifies this
      ensures Valid() && S() == Closed(old(S()), writable) && (freed <==> !readopen && !writeopen)
    {
      if writable {
        writeopen := false;
      } else {
        readopen := false;
      }
      return !readopen && !writeopen;
    }
  }

  function Closed(s: Stream, writable: bool): Stream
  {
    if writable then s.(writeopen := false) else s.(readopen := false)
  }

  /** The next byte goes to a place that holds no unread byte. */
  lemma {:induction false} RingStep(sent: seq<Byte>, got: nat, data: seq<Byte>, x: Byte)
    requires got <= |sent| < got + PIPESIZE && Stored(data, sent, got)
    ensures |sent| % PIPESIZE < |data| && Stored(data[|sent| % PIPESIZE := x], sent + [x], got)
  {
    forall k | got <= k < |sent| ensures k % PIPESIZE != |sent| % PIPESIZE {}
  }

  // ----- readers and writers -----

  /** A call under way: a write that has sent addr[..i], or a read. */
  datatype Call = Writing(addr: seq<Byte>, i: nat) | Reading(n: nat)

  datatype Thread = Thread(call: Call, asleep: bool)

  /** `received` is what all reads returned, in order. */
  datatype State = State(pipe: Stream, threads: map<nat, Thread>, received: seq<Byte>)

  datatype Action = Begin(t: nat, call: Call) | Go(t: nat, killed: bool) | Kill(t: nat) | Close(writable: bool)

  /** wakeup on the readers' or the writers' channel. */
  function Awake(ts: map<nat, Thread>, writers: bool): map<nat, Thread>
  {
    map t | t in ts :: if ts[t].call.Writing? == writers then ts[t].(asleep := false) else ts[t]
  }

  /** A call holds its end of the pipe open; an end is closed when no call uses it. */
  predicate Enabled(s: State, a: Action)
  {
    match a
    case Begin(t, call) => t !in s.threads
        && (if call.Writing? then s.pipe.writeopen && call.i == 0 else s.pipe.readopen)
    case Go(t, _) => t in s.threads && !s.threads[t].asleep
    case Kill(t) => t in s.threads
    case Close(writable) => forall t :: t in s.threads ==> s.threads[t].call.Writing? != writable
  }

  /** One step: a call begins; it runs until it sleeps or returns; kill wakes it; an end is closed. */
  function Next(s: State, a: Action): State
    requires Inv(s) && Enabled(s, a)
  {
    match a
    case Begin(t, call) => s.(threads := s.threads[t := Thread(call, false)])
    case Go(t, killed) =>
      (match s.threads[t].call
       case Writing(addr, i) => Writes(s, t, addr, i, killed)
       case Reading(n) => Reads(s, t, n, killed))
    case Kill(t) => s.(threads := s.threads[t := s.threads[t].(asleep := false)])
    case Close(writable) => s.(pipe := Closed(s.pipe, writable), threads := Awake(s.threads, !writable))
  }

  function Writes(s: State, t: nat, addr: seq<Byte>, i: nat, killed: bool): State
    requires Fits(s.pipe) && i <= |addr|
  {
    var r := WriteSeg(s.pipe, addr, i, killed);
    match r.2
    case Done => s.(pipe := r.0, threads := Awake(s.threads, false) - {t})
    case Failed => s.(pipe := r.0, threads := s.threads - {t})
    case Blocked => s.(pipe := r.0, threads := Awake(s.threads, false)[t := Thread(Writing(addr, r.1), true)])
  }

  function Reads(s: State, t: nat, n: nat, killed: bool): State
    requires Fits(s.pipe)
  {
    var r := ReadSeg(s.pipe, n, killed);
    match r.2
    case Done => s.(pipe := r.0, threads := Awake(s.threads, true) - {t}, received := s.received + r.1)
    case Failed => s.(threads := s.threads - {t})
    case Blocked => s.(threads := s.threads[t := Thread(Reading(n), true)])
  }

  /** The bytes read are those sent first; calls hold their ends open. */
  ghost predicate Inv(s: State)
  {
    && Fits(s.pipe) && s.received == s.pipe.sent[..s.pipe.got]
    && (forall t :: t in s.threads ==> CallOk(s.pipe, s.threads[t].call))
  }

  predicate CallOk(p: Stream, call: Call)
  {
    match call
    case Writing(addr, i) => p.writeopen && i <= |addr|
    case Reading(_) => p.readopen
  }

  /** No one sleeps without reason: a sleeping reader finds the pipe empty and the write end open, a sleeping writer
      finds it full and the read end open. */
  ghost predicate Rested(s: State)
  {
    forall t :: t in s.threads && s.threads[t].asleep ==>
      if s.threads[t].call.Writing? then |s.pipe.sent| == s.pipe.got + PIPESIZE && s.pipe.readopen
      else |s.pipe.sent| == s.pipe.got && s.pipe.writeopen
  }

  lemma {:induction false} StepInv(s: State, a: Action)
    requires Inv(s) && Enabled(s, a)
    ensures Inv(Next(s, a)) && s.pipe.sent <= Next(s, a).pipe.sent && s.received <= Next(s, a).received
  {
    hide WriteSeg;
    hide ReadSeg;
    if a.Go? {
      match s.threads[a.t].call
      case Writing(addr, i) => WriteSegGrows(s.pipe, addr, i, a.killed);
      case Reading(n) => ReadSegGrows(s.pipe, n, a.killed);
    }
  }

  lemma {:induction false} WriteSegGrows(p: Stream, addr: seq<Byte>, i: nat, killed: bool)
    requires Fits(p) && i <= |addr|
    ensures var q := WriteSeg(p, addr, i, killed).0;
            p.sent <= q.sent && q.got == p.got && q.readopen == p.readopen && q.writeopen == p.writeopen
                && q.sent[..q.got] == p.sent[..p.got]
  {}

  lemma {:induction false} ReadSegGrows(p: Stream, n: nat, killed: bool)
    requires Fits(p)
    ensures var r := ReadSeg(p, n, killed);
            && r.0.sent == p.sent && r.0.readopen == p.readopen && r.0.writeopen == p.writeopen
            && (r.2 == Done ==> p.sent[..r.0.got] == p.sent[..p.got] + r.1) && (r.2 != Done ==> r.0 == p)
  {}

  /** Some reader is asleep. */
  ghost predicate ReaderAsleep(s: State)
  {
    exists t :: t in s.threads && s.threads[t].asleep && s.threads[t].call.Reading?
  }

  /** The one step that can leave a reader asleep beside a full pipe: a killed writer fills the pipe and returns -1
      without wakeup, while a reader sleeps and the write does not fit into the pipe. */
  ghost predicate Forgets(s: State, a: Action)
    requires Enabled(s, a)
  {
    && a.Go? && a.killed && s.threads[a.t].call.Writing? && ReaderAsleep(s)
    && |s.threads[a.t].call.addr| - s.threads[a.t].call.i > PIPESIZE
  }

  /** NO LOST WAKEUP. A step keeps everyone's sleep justified if and only if it is not that one. */
  lemma {:induction false} StepRested(s: State, a: Action)
    requires Inv(s) && Enabled(s, a) && Rested(s)
    ensures Rested(Next(s, a)) <==> !Forgets(s, a)
  {
    var s' := Next(s, a);
    if Forgets(s, a) {
      var t :| t in s.threads && s.threads[t].asleep && s.threads[t].call.Reading?;
      assert t in s'.threads && s'.threads[t] == s.threads[t];
    }
  }

  // ----- all runs -----

  function NewPipe(): State { State(Stream([], 0, true, true), map[], []) }

  /** The state after the first n actions, if each could be taken. */
  ghost function After(run: seq<Action>, n: nat): (r: Option<State>)
    requires n <= |run|
    ensures r.Some? ==> Inv(r.value)
  {
    if n == 0 then Some(NewPipe())
    else
      var t := After(run, n - 1);
      if t.Some? && Enabled(t.value, run[n-1]) then
        StepInv(t.value, run[n-1]);
        Some(Next(t.value, run[n-1]))
      else None
  }

  /** STREAM. In every interleaving of readers and writers, what was read is a prefix of what was written, at most
      PIPESIZE bytes are under way, and neither is ever taken back. */
  lemma {:induction false} PrefixOfSent(run: seq<Action>, m: nat, n: nat)
    requires m <= n <= |run| && After(run, n).Some?
    ensures After(run, m).Some?
    ensures var s, s' := After(run, m).value, After(run, n).value;
            && s'.received == s'.pipe.sent[..s'.pipe.got] && s'.pipe.got <= |s'.pipe.sent| <= s'.pipe.got + PIPESIZE
            && s.pipe.sent <= s'.pipe.sent && s.received <= s'.received
    decreases n
  {
    if m < n {
      PrefixOfSent(run, m, n - 1);
      StepInv(After(run, n - 1).value, run[n-1]);
    }
  }

  ghost predicate Remembers(run: seq<Action>, k: nat)
  {
    k < |run| && (After(run, k).Some? && Enabled(After(run, k).value, run[k]) ==> !Forgets(After(run, k).value, run[k]))
  }

  /** In a run without that step no one sleeps without reason. */
  lemma {:induction false} AllRested(run: seq<Action>, n: nat)
    requires n <= |run| && After(run, n).Some?
    requires forall k: nat :: k < n ==> Remembers(run, k)
    ensures Rested(After(run, n).value)
    decreases n
  {
    if n > 0 {
      assert Remembers(run, n - 1);
      AllRested(run, n - 1);
      StepRested(After(run, n - 1).value, run[n-1]);
    }
  }

  /** The step happens: a reader goes to sleep on the empty pipe, a killed writer of 513 bytes returns -1, and the
      reader sleeps on while the pipe is full. */
  lemma {:induction false} KilledWriterForgets(addr: seq<Byte>)
    requires |addr| == PIPESIZE + 1
    ensures var run := [Begin(0, Reading(1)), Go(0, false), Begin(1, Writing(addr, 0)), Go(1, true)];
            && After(run, 4).Some?
            && var s := After(run, 4).value;
               0 in s.threads && s.threads[0] == Thread(Reading(1), true) && |s.pipe.sent| == s.pipe.got + PIPESIZE
                   && !Rested(s)
  {
    var run := [Begin(0, Reading(1)), Go(0, false), Begin(1, Writing(addr, 0)), Go(1, true)];
    var s0 := NewPipe();
    var s1 := s0.(threads := map[0 := Thread(Reading(1), false)]);
    assert After(run, 0) == Some(s0) && After(run, 1) == Some(s1);
    var s2 := s0.(threads := map[0 := Thread(Reading(1), true)]);
    assert s1.threads[0 := Thread(Reading(1), true)] == s2.threads;
    assert After(run, 2) == Some(s2);
    var s3 := s2.(threads := s2.threads[1 := Thread(Writing(addr, 0), false)]);
    assert After(run, 3) == Some(s3);
    var s4 := Writes(s3, 1, addr, 0, true);
    assert After(run, 4) == Some(s4);
    assert s4.threads == s3.threads - {1};
  }
}
