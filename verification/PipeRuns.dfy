/**
A pipe shared by any number of processes: every interleaving of pipewrite, piperead, pipeclose and
kill, down to the two locks that sleep and wakeup juggle.
*/
module PipeRuns {
  import opened Basics
  import opened PipeRing

  /** What a process is doing: writing src, of which i bytes are stored, or reading up to n bytes. */
  datatype Task = Write(src: seq<Byte>, i: nat) | Read(n: nat)

  /** Where a process stands. */
  datatype Pc =
    | Idle
    | Enter(task: Task)                      // about to acquire the pipe's lock
    | Test(task: Task, news: bool)           // at the loop test; news: it stored bytes since it last woke the readers
    | Alert(task: Task)                      // a writer that found the pipe full: about to wake the readers
    | Sleep1(task: Task)                     // in sleep: about to acquire ptable.lock
    | Sleep2(task: Task)                     // holding both locks
    | Sleep3(task: Task)                     // the pipe's lock released, not SLEEPING yet
    | Asleep(task: Task)
    | Woken(task: Task)                      // RUNNABLE again: about to reacquire the pipe's lock
    | Copy(n: nat, got: seq<Byte>)           // a reader taking bytes
    | Finish(task: Task, got: seq<Byte>)     // about to wake the other side
    | Leave(writer: bool)                    // about to release the pipe's lock and return
    | CloseEnter(writable: bool)
    | CloseWake(writable: bool)
    | CloseCheck(writable: bool)

  datatype Holder = Free | By(k: nat)

  /**
  The pipe, its lock and ptable.lock, the processes; the bytes stored so far and those returned
  to readers, each in the order they were stored or taken; who, if anyone, has given up the last
  reference to each end; whether the pipe's page has been freed;
  and whether a killed writer has left readers asleep.
  */
  datatype System = System(ring: Ring, readopen: bool, writeopen: bool, lock: Holder, table: Holder,
                           th: seq<Pc>, killed: seq<bool>, stored: seq<Byte>, returned: seq<Byte>,
                           readCloser: Holder, writeCloser: Holder, freed: bool, lost: bool)

  datatype Step =
    | BeginWrite(k: nat, src: seq<Byte>)
    | BeginRead(k: nat, n: nat)
    | BeginClose(k: nat, writable: bool)     // the last reference to that end goes
    | Kill(k: nat)
    | Go(k: nat)                             // k's next step

  predicate HoldsLock(pc: Pc)
  {
    pc.Test? || pc.Alert? || pc.Sleep1? || pc.Sleep2? || pc.Copy? || pc.Finish? || pc.Leave? || pc.CloseWake?
        || pc.CloseCheck?
  }

  predicate HoldsTable(pc: Pc)
  {
    pc.Sleep2? || pc.Sleep3?
  }

  predicate HasTask(pc: Pc)
  {
    pc.Enter? || pc.Test? || pc.Alert? || pc.Sleep1? || pc.Sleep2? || pc.Sleep3? || pc.Asleep? || pc.Woken?
        || pc.Finish?
  }

  /** Inside pipewrite, or inside piperead. */
  predicate Uses(pc: Pc, writer: bool)
  {
    (HasTask(pc) && pc.task.Write? == writer) || (pc.Copy? && !writer) || (pc.Leave? && pc.writer == writer)
  }

  /** Asleep, or past the point where it can change its mind. */
  predicate Sleeps(pc: Pc, writer: bool)
  {
    (pc.Asleep? || pc.Sleep3?) && pc.task.Write? == writer
  }

  /** wakeup on the readers' channel (&p->nread) or the writers' (&p->nwrite). */
  function WakeOne(pc: Pc, writers: bool): Pc
  {
    if pc.Asleep? && pc.task.Write? == writers then Woken(pc.task) else pc
  }

  function Wake(th: seq<Pc>, writers: bool): (r: seq<Pc>)
    ensures |r| == |th| && forall j {:trigger r[j]} :: 0 <= j < |th| ==> r[j] == WakeOne(th[j], writers)
  {
    seq(|th|, j requires 0 <= j < |th| => WakeOne(th[j], writers))
  }

  predicate Shaped(s: System)
  {
    |s.killed| == |s.th| && PipeRing.Sized(s.ring)
  }

  function Open(s: System, writable: bool): bool
  {
    if writable then s.writeopen else s.readopen
  }

  function Closer(s: System, writable: bool): Holder
  {
    if writable then s.writeCloser else s.readCloser
  }

  ghost predicate Enabled(s: System, step: Step)
    requires Shaped(s)
  {
    step.k < |s.th| &&
    match step
    case BeginWrite(k, _) => s.th[k] == Idle && s.writeCloser == Free
    case BeginRead(k, _) => s.th[k] == Idle && s.readCloser == Free
    case BeginClose(k, w) => s.th[k] == Idle && Closer(s, w) == Free && forall j {:trigger s.th[j]} ::
        0 <= j < |s.th| ==> !Uses(s.th[j], w)
    case Kill(k) => s.table == Free
    case Go(k) =>
      match s.th[k]
      case Idle => false
      case Asleep(_) => false
      case Enter(_) => s.lock == Free
      case Woken(_) => s.lock == Free
      case CloseEnter(_) => s.lock == Free
      case Alert(_) => s.table == Free
      case Sleep1(_) => s.table == Free
      case Finish(_, _) => s.table == Free
      case CloseWake(_) => s.table == Free
      case _ => true
  }

  ghost function To(s: System, k: nat, pc: Pc): System
    requires k < |s.th|
  {
    s.(th := s.th[k := pc])
  }

  ghost predicate ReaderSleeps(s: System)
  {
    exists j {:trigger s.th[j]} :: 0 <= j < |s.th| && Sleeps(s.th[j], false)
  }

  /** A writer at its loop test, holding the lock. */
  ghost function WriterTest(s: System, k: nat): System
    requires Shaped(s) && k < |s.th| && s.th[k].Test? && s.th[k].task.Write?
  {
    var t := s.th[k].task;
    if t.i >= |t.src| then To(s, k, Finish(t, []))
    else if !Full(s.ring) then
      To(s, k, Test(t.(i := t.i + 1), true)).(ring := Push(s.ring, t.src[t.i]), stored := s.stored + [t.src[t.i]])
    else if !s.readopen || s.killed[k] then
      To(s, k, Leave(true)).(lost := s.lost || (s.th[k].news && ReaderSleeps(s)))
    else To(s, k, Alert(t))
  }

  /** A reader at its loop test, holding the lock. */
  ghost function ReaderTest(s: System, k: nat): System
    requires Shaped(s) && k < |s.th| && s.th[k].Test? && s.th[k].task.Read?
  {
    var t := s.th[k].task;
    if !(Empty(s.ring) && s.writeopen) then To(s, k, Copy(t.n, []))
    else if s.killed[k] then To(s, k, Leave(false))
    else To(s, k, Sleep1(t))
  }

  ghost function CopyOne(s: System, k: nat): System
    requires Shaped(s) && k < |s.th| && s.th[k].Copy?
  {
    var pc := s.th[k];
    if |pc.got| >= pc.n || Empty(s.ring) then To(s, k, Finish(Read(pc.n), pc.got))
    else To(s, k, Copy(pc.n, pc.got + [Front(s.ring)])).(ring := Pop(s.ring), returned := s.returned + [Front(s.ring)])
  }

  /** A step of process k that leaves the bytes alone. */
  ghost function Shift(s: System, k: nat): System
    requires k < |s.th|
  {
    match s.th[k]
    case Enter(t) => To(s, k, Test(t, false)).(lock := By(k))
    case Woken(t) => To(s, k, Test(t, false)).(lock := By(k))
    case Alert(t) => To(s.(th := Wake(s.th, false)), k, Sleep1(t))
    case Sleep1(t) => To(s, k, Sleep2(t)).(table := By(k))
    case Sleep2(t) => To(s, k, Sleep3(t)).(lock := Free)
    case Sleep3(t) => To(s, k, Asleep(t)).(table := Free)
    case Finish(t, _) => To(s.(th := Wake(s.th, t.Read?)), k, Leave(t.Write?))
    case Leave(_) => To(s, k, Idle).(lock := Free)
    case CloseEnter(w) =>
      To(s, k, CloseWake(w)).(lock := By(k), writeopen := s.writeopen && !w, readopen := s.readopen && w)
    case CloseWake(w) => To(s.(th := Wake(s.th, !w)), k, CloseCheck(w))
    case CloseCheck(_) => To(s, k, Idle).(lock := Free, freed := s.freed || (!s.readopen && !s.writeopen))
    case _ => s
  }

  /** The next step of process k. */
  ghost function Proceed(s: System, k: nat): System
    requires Shaped(s) && k < |s.th|
  {
    match s.th[k]
    case Test(t, _) => if t.Write? then WriterTest(s, k) else ReaderTest(s, k)
    case Copy(_, _) => CopyOne(s, k)
    case _ => Shift(s, k)
  }

  ghost function Apply(s: System, step: Step): System
    requires Shaped(s) && Enabled(s, step)
  {
    match step
    case BeginWrite(k, src) => To(s, k, Enter(Write(src, 0)))
    case BeginRead(k, n) => To(s, k, Enter(Read(n)))
    case BeginClose(k, w) =>
      To(s, k, CloseEnter(w)).(writeCloser := if w then By(k) else s.writeCloser, readCloser := if w then s.readCloser
                               else By(k))
    case Kill(k) =>
      s.(killed := s.killed[k := true], th := s.th[k := if s.th[k].Asleep? then Woken(s.th[k].task) else s.th[k]])
    case Go(k) => Proceed(s, k)
  }

  // ---- What every step keeps ----

  ghost predicate IsEmpty(s: System)
  {
    |s.stored| == |s.returned|
  }

  ghost predicate IsFull(s: System)
  {
    |s.stored| == |s.returned| + PIPESIZE
  }

  /** A process holding the lock that will wake the readers, or the writers, before it lets go. */
  predicate Owing(pc: Pc, writers: bool)
  {
    if writers then pc.Copy? || (pc.Finish? && pc.task.Read?) || pc == CloseWake(false)
    else (pc.Test? && pc.task.Write? && pc.news) || pc.Alert? || (pc.Finish? && pc.task.Write?) || pc == CloseWake(true)
  }

  ghost predicate Owed(s: System, writers: bool)
  {
    s.lock.By? && s.lock.k < |s.th| && Owing(s.th[s.lock.k], writers)
  }

  /** A reader's bytes so far are the ones last taken. */
  ghost predicate Latest(s: System, got: seq<Byte>)
  {
    |got| <= |s.returned| && got == s.returned[|s.returned| - |got|..]
  }

  /** Process k holds the locks its place says, uses only open ends, and touches no freed pipe. */
  ghost predicate Orderly(s: System, k: nat)
    requires k < |s.th|
  {
    var pc := s.th[k];
    && (HoldsLock(pc) <==> s.lock == By(k)) && (HoldsTable(pc) <==> s.table == By(k))
    && (Uses(pc, true) ==> s.writeCloser == Free) && (Uses(pc, false) ==> s.readCloser == Free)
    && (pc.CloseEnter? ==> Closer(s, pc.writable) == By(k) && Open(s, pc.writable))
    && (pc.CloseWake? || pc.CloseCheck? ==> Closer(s, pc.writable) == By(k) && !Open(s, pc.writable))
    && (s.freed ==> pc == Idle)
  }

  /** Process k is, or is going to be, asleep only as long as it must wait. */
  ghost predicate Justified(s: System, k: nat)
    requires k < |s.th|
  {
    var pc := s.th[k];
    && (pc.Alert? ==> pc.task.Write? && IsFull(s) && s.readopen)
    && (pc.Sleep1? || pc.Sleep2? ==> if pc.task.Write? then IsFull(s) && s.readopen else IsEmpty(s) && s.writeopen)
    && (Sleeps(pc, true) ==> (IsFull(s) && s.readopen) || Owed(s, true))
    && (Sleeps(pc, false) ==> s.lost || (IsEmpty(s) && s.writeopen) || Owed(s, false))
    && (pc.Copy? ==> Latest(s, pc.got)) && (pc.Finish? && pc.task.Read? ==> Latest(s, pc.got))
  }

  ghost predicate Fine(s: System, k: nat)
    requires k < |s.th|
  {
    Orderly(s, k) && Justified(s, k)
  }

  /** Everything but the contents of the ring. */
  ghost predicate Disciplined(s: System)
  {
    && Shaped(s) && |s.returned| <= |s.stored| <= |s.returned| + PIPESIZE
    && (s.readCloser == Free ==> s.readopen) && (s.writeCloser == Free ==> s.writeopen)
    && (s.freed ==> !s.readopen && !s.writeopen)
    && (s.lock.By? ==> s.lock.k < |s.th|) && (s.table.By? ==> s.table.k < |s.th|)
    && forall k {:trigger Fine(s, k)} :: 0 <= k < |s.th| ==> Fine(s, k)
  }

  ghost predicate SameBytes(s: System, s': System)
  {
    s'.ring == s.ring && s'.stored == s.stored && s'.returned == s.returned
  }

  ghost predicate Invariant(s: System)
  {
    Disciplined(s) && Holds(s.ring, s.stored, |s.returned|) && s.returned <= s.stored
  }

  lemma BeginCallKeeps(s: System, k: nat, t: Task, s': System)
    requires Disciplined(s) && k < |s.th| && s.th[k] == Idle
    requires (if t.Write? then s.writeCloser == Free else s.readCloser == Free)
    requires s' == To(s, k, Enter(t))
    ensures Disciplined(s')
  {
    assert Fine(s, k);
    forall j | 0 <= j < |s'.th| ensures Fine(s', j) {
      assert Fine(s, j);
    }
  }

  lemma BeginCloseKeeps(s: System, k: nat, w: bool, s': System)
    requires Disciplined(s) && k < |s.th| && Enabled(s, BeginClose(k, w))
    requires s' == Apply(s, BeginClose(k, w))
    ensures Disciplined(s')
  {
    assert Fine(s, k);
    forall j | 0 <= j < |s'.th| ensures Fine(s', j) {
      assert Fine(s, j);
    }
  }

  lemma KillKeeps(s: System, k: nat, s': System)
    requires Disciplined(s) && k < |s.th| && s.table == Free
    requires s' == s.(killed := s.killed[k := true],
                      th := s.th[k := if s.th[k].Asleep? then Woken(s.th[k].task) else s.th[k]])
    ensures Disciplined(s')
  {
    assert Fine(s, k);
    forall j | 0 <= j < |s'.th| ensures Fine(s', j) {
      assert Fine(s, j);
    }
  }

  lemma AcquireKeeps(s: System, k: nat, t: Task, s': System)
    requires Disciplined(s) && k < |s.th| && (s.th[k] == Enter(t) || s.th[k] == Woken(t)) && s.lock == Free
    requires s' == To(s, k, Test(t, false)).(lock := By(k))
    ensures Disciplined(s') && SameBytes(s, s')
  {
    assert Fine(s, k);
    forall j | 0 <= j < |s'.th| ensures Fine(s', j) {
      assert Fine(s, j);
    }
  }

  lemma Sleep1Keeps(s: System, k: nat, t: Task, s': System)
    requires Disciplined(s) && k < |s.th| && s.th[k] == Sleep1(t) && s.table == Free
    requires s' == To(s, k, Sleep2(t)).(table := By(k))
    ensures Disciplined(s') && SameBytes(s, s')
  {
    assert Fine(s, k);
    forall j | 0 <= j < |s'.th| ensures Fine(s', j) {
      assert Fine(s, j);
    }
  }

  /** The pipe's lock goes while ptable.lock is held, so no wakeup can come before the process is asleep. */
  lemma Sleep2Keeps(s: System, k: nat, t: Task, s': System)
    requires Disciplined(s) && k < |s.th| && s.th[k] == Sleep2(t)
    requires s' == To(s, k, Sleep3(t)).(lock := Free)
    ensures Disciplined(s') && SameBytes(s, s')
  {
    assert Fine(s, k);
    forall j | 0 <= j < |s'.th| ensures Fine(s', j) {
      assert Fine(s, j);
    }
  }

  lemma Sleep3Keeps(s: System, k: nat, t: Task, s': System)
    requires Disciplined(s) && k < |s.th| && s.th[k] == Sleep3(t)
    requires s' == To(s, k, Asleep(t)).(table := Free)
    ensures Disciplined(s') && SameBytes(s, s')
  {
    assert Fine(s, k);
    forall j | 0 <= j < |s'.th| ensures Fine(s', j) {
      assert Fine(s, j);
    }
  }

  lemma LeaveKeeps(s: System, k: nat, s': System)
    requires Disciplined(s) && k < |s.th| && s.th[k].Leave?
    requires s' == To(s, k, Idle).(lock := Free)
    ensures Disciplined(s') && SameBytes(s, s')
  {
    assert Fine(s, k);
    forall j | 0 <= j < |s'.th| ensures Fine(s', j) {
      assert Fine(s, j);
    }
  }

  /** Waking a side: nobody on it is left asleep, since whoever is about to sleep holds ptable.lock. */
  lemma AlertKeeps(s: System, k: nat, t: Task, s': System)
    requires Disciplined(s) && k < |s.th| && s.th[k] == Alert(t) && s.table == Free
    requires s' == To(s.(th := Wake(s.th, false)), k, Sleep1(t))
    ensures Disciplined(s') && SameBytes(s, s')
  {
    assert Fine(s, k);
    forall j | 0 <= j < |s'.th| ensures Fine(s', j) {
      assert Fine(s, j);
    }
  }

  lemma FinishKeeps(s: System, k: nat, t: Task, s': System)
    requires Disciplined(s) && k < |s.th| && s.th[k].Finish? && s.th[k].task == t && s.table == Free
    requires s' == To(s.(th := Wake(s.th, t.Read?)), k, Leave(t.Write?))
    ensures Disciplined(s') && SameBytes(s, s')
  {
    assert Fine(s, k);
    forall j | 0 <= j < |s'.th| ensures Fine(s', j) {
      assert Fine(s, j);
    }
  }

  lemma CloseWakeKeeps(s: System, k: nat, w: bool, s': System)
    requires Disciplined(s) && k < |s.th| && s.th[k] == CloseWake(w) && s.table == Free
    requires s' == To(s.(th := Wake(s.th, !w)), k, CloseCheck(w))
    ensures Disciplined(s') && SameBytes(s, s')
  {
    assert Fine(s, k);
    forall j | 0 <= j < |s'.th| ensures Fine(s', j) {
      assert Fine(s, j);
    }
  }

  lemma CloseEnterKeeps(s: System, k: nat, w: bool, s': System)
    requires Disciplined(s) && k < |s.th| && s.th[k] == CloseEnter(w) && s.lock == Free
    requires s' == To(s, k, CloseWake(w)).(lock := By(k), writeopen := s.writeopen && !w, readopen := s.readopen && w)
    ensures Disciplined(s') && SameBytes(s, s')
  {
    assert Fine(s, k);
    forall j | 0 <= j < |s'.th| ensures Fine(s', j) {
      assert Fine(s, j);
    }
  }

  /** The page is freed only when nobody is left inside. */
  lemma CloseCheckKeeps(s: System, k: nat, s': System)
    requires Disciplined(s) && k < |s.th| && s.th[k].CloseCheck?
    requires s' == To(s, k, Idle).(lock := Free, freed := s.freed || (!s.readopen && !s.writeopen))
    ensures Disciplined(s') && SameBytes(s, s')
  {
    assert Fine(s, k);
    forall j | 0 <= j < |s'.th| ensures Fine(s', j) {
      assert Fine(s, j);
    }
  }

  lemma StoreKeeps(s: System, k: nat, b: Byte, r: Ring)
    requires Disciplined(s) && k < |s.th| && s.th[k].Test? && s.th[k].task.Write? && !IsFull(s) && PipeRing.Sized(r)
    ensures var t := s.th[k].task;
            Disciplined(To(s, k, Test(t.(i := t.i + 1), true)).(ring := r, stored := s.stored + [b]))
  {
    var t := s.th[k].task;
    var s' := To(s, k, Test(t.(i := t.i + 1), true)).(ring := r, stored := s.stored + [b]);
    assert Fine(s, k);
    forall j | 0 <= j < |s'.th| ensures Fine(s', j) {
      assert Fine(s, j);
    }
  }

  lemma WriteEndKeeps(s: System, k: nat, t: Task, s': System)
    requires Disciplined(s) && k < |s.th| && s.th[k].Test? && s.th[k].task == t && t.Write?
    requires s' == To(s, k, Finish(t, []))
    ensures Disciplined(s')
  {
    assert Fine(s, k);
    forall j | 0 <= j < |s'.th| ensures Fine(s', j) {
      assert Fine(s, j);
    }
  }

  lemma AlarmKeeps(s: System, k: nat, t: Task, s': System)
    requires Disciplined(s) && k < |s.th| && s.th[k].Test? && s.th[k].task == t && t.Write? && IsFull(s) && s.readopen
    requires s' == To(s, k, Alert(t))
    ensures Disciplined(s')
  {
    assert Fine(s, k);
    forall j | 0 <= j < |s'.th| ensures Fine(s', j) {
      assert Fine(s, j);
    }
  }

  lemma BailKeeps(s: System, k: nat, s': System)
    requires Disciplined(s) && k < |s.th| && s.th[k].Test? && s.th[k].task.Write?
    requires s' == To(s, k, Leave(true)).(lost := s.lost || (s.th[k].news && ReaderSleeps(s)))
    ensures Disciplined(s')
  {
    assert Fine(s, k);
    forall j | 0 <= j < |s'.th| ensures Fine(s', j) {
      assert Fine(s, j);
    }
  }

  lemma WriterKeeps(s: System, k: nat)
    requires Invariant(s) && k < |s.th| && s.th[k].Test? && s.th[k].task.Write?
    ensures Invariant(WriterTest(s, k))
  {
    var t := s.th[k].task;
    Tests(s.ring, s.stored, |s.returned|);
    if t.i < |t.src| && !Full(s.ring) {
      PushHolds(s.ring, s.stored, |s.returned|, t.src[t.i]);
      StoreKeeps(s, k, t.src[t.i], Push(s.ring, t.src[t.i]));
    } else if t.i >= |t.src| {
      WriteEndKeeps(s, k, t, WriterTest(s, k));
    } else if !s.readopen || s.killed[k] {
      BailKeeps(s, k, WriterTest(s, k));
    } else {
      AlarmKeeps(s, k, t, WriterTest(s, k));
    }
  }

  lemma ReadStartKeeps(s: System, k: nat, n: nat, s': System)
    requires Disciplined(s) && k < |s.th| && s.th[k].Test? && s.th[k].task == Read(n)
    requires s' == To(s, k, Copy(n, []))
    ensures Disciplined(s')
  {
    assert Fine(s, k);
    forall j | 0 <= j < |s'.th| ensures Fine(s', j) {
      assert Fine(s, j);
    }
  }

  lemma ReadLeaveKeeps(s: System, k: nat, s': System)
    requires Disciplined(s) && k < |s.th| && s.th[k].Test? && s.th[k].task.Read?
    requires s' == To(s, k, Leave(false))
    ensures Disciplined(s')
  {
    assert Fine(s, k);
    forall j | 0 <= j < |s'.th| ensures Fine(s', j) {
      assert Fine(s, j);
    }
  }

  lemma ReadSleepKeeps(s: System, k: nat, t: Task, s': System)
    requires Disciplined(s) && k < |s.th| && s.th[k].Test? && s.th[k].task == t && t.Read? && IsEmpty(s) && s.writeopen
    requires s' == To(s, k, Sleep1(t))
    ensures Disciplined(s')
  {
    assert Fine(s, k);
    forall j | 0 <= j < |s'.th| ensures Fine(s', j) {
      assert Fine(s, j);
    }
  }

  lemma ReaderKeeps(s: System, k: nat)
    requires Invariant(s) && k < |s.th| && s.th[k].Test? && s.th[k].task.Read?
    ensures Invariant(ReaderTest(s, k))
  {
    var t := s.th[k].task;
    Tests(s.ring, s.stored, |s.returned|);
    if !(Empty(s.ring) && s.writeopen) {
      ReadStartKeeps(s, k, t.n, ReaderTest(s, k));
    } else if s.killed[k] {
      ReadLeaveKeeps(s, k, ReaderTest(s, k));
    } else {
      ReadSleepKeeps(s, k, t, ReaderTest(s, k));
    }
  }

  lemma LatestMore(s: System, got: seq<Byte>, b: Byte)
    requires Latest(s, got)
    ensures Latest(s.(returned := s.returned + [b]), got + [b])
  {
  }

  lemma TakeKeeps(s: System, k: nat, b: Byte, r: Ring)
    requires Disciplined(s) && k < |s.th| && s.th[k].Copy? && !IsEmpty(s) && PipeRing.Sized(r)
    ensures var pc := s.th[k];
            Disciplined(To(s, k, Copy(pc.n, pc.got + [b])).(ring := r, returned := s.returned + [b]))
  {
    var pc := s.th[k];
    var s' := To(s, k, Copy(pc.n, pc.got + [b])).(ring := r, returned := s.returned + [b]);
    assert Fine(s, k);
    LatestMore(s, pc.got, b);
    forall j | 0 <= j < |s'.th| ensures Fine(s', j) {
      assert Fine(s, j);
    }
  }

  lemma CopyStops(s: System, k: nat)
    requires Disciplined(s) && k < |s.th| && s.th[k].Copy?
    ensures Disciplined(To(s, k, Finish(Read(s.th[k].n), s.th[k].got)))
  {
    var s' := To(s, k, Finish(Read(s.th[k].n), s.th[k].got));
    assert Fine(s, k);
    forall j | 0 <= j < |s'.th| ensures Fine(s', j) {
      assert Fine(s, j);
    }
  }

  lemma CopyKeeps(s: System, k: nat)
    requires Invariant(s) && k < |s.th| && s.th[k].Copy?
    ensures Invariant(CopyOne(s, k))
  {
    Tests(s.ring, s.stored, |s.returned|);
    if |s.th[k].got| >= s.th[k].n || Empty(s.ring) {
      CopyStops(s, k);
    } else {
      PopHolds(s.ring, s.stored, |s.returned|);
      TakeKeeps(s, k, Front(s.ring), Pop(s.ring));
    }
  }

  lemma LockShiftKeeps(s: System, k: nat)
    requires Disciplined(s) && Enabled(s, Go(k))
    requires var pc := s.th[k]; pc.Enter? || pc.Woken? || pc.Sleep1? || pc.Sleep2? || pc.Sleep3? || pc.Leave?
    ensures Disciplined(Shift(s, k)) && SameBytes(s, Shift(s, k))
  {
    match s.th[k]
    case Enter(t) => AcquireKeeps(s, k, t, Shift(s, k));
    case Woken(t) => AcquireKeeps(s, k, t, Shift(s, k));
    case Sleep1(t) => Sleep1Keeps(s, k, t, Shift(s, k));
    case Sleep2(t) => Sleep2Keeps(s, k, t, Shift(s, k));
    case Sleep3(t) => Sleep3Keeps(s, k, t, Shift(s, k));
    case Leave(_) => LeaveKeeps(s, k, Shift(s, k));
  }

  lemma WakeShiftKeeps(s: System, k: nat)
    requires Disciplined(s) && Enabled(s, Go(k))
    requires var pc := s.th[k]; pc.Alert? || pc.Finish? || pc.CloseEnter? || pc.CloseWake? || pc.CloseCheck?
    ensures Disciplined(Shift(s, k)) && SameBytes(s, Shift(s, k))
  {
    match s.th[k]
    case Alert(t) => AlertKeeps(s, k, t, Shift(s, k));
    case Finish(t, _) => FinishKeeps(s, k, t, Shift(s, k));
    case CloseWake(w) => CloseWakeKeeps(s, k, w, Shift(s, k));
    case CloseEnter(w) => CloseEnterKeeps(s, k, w, Shift(s, k));
    case CloseCheck(_) => CloseCheckKeeps(s, k, Shift(s, k));
  }

  lemma ProceedKeeps(s: System, k: nat)
    requires Invariant(s) && Enabled(s, Go(k))
    ensures Invariant(Proceed(s, k))
  {
    var pc := s.th[k];
    if pc.Test? && pc.task.Write? {
      WriterKeeps(s, k);
    } else if pc.Test? {
      ReaderKeeps(s, k);
    } else if pc.Copy? {
      CopyKeeps(s, k);
    } else if pc.Alert? || pc.Finish? || pc.CloseEnter? || pc.CloseWake? || pc.CloseCheck? {
      WakeShiftKeeps(s, k);
    } else {
      LockShiftKeeps(s, k);
    }
  }

  /** Every step of any process keeps the invariant. */
  lemma StepKeeps(s: System, step: Step)
    requires Invariant(s) && Enabled(s, step)
    ensures Invariant(Apply(s, step))
  {
    match step
    case BeginWrite(k, src) => BeginCallKeeps(s, k, Write(src, 0), Apply(s, step));
    case BeginRead(k, n) => BeginCallKeeps(s, k, Read(n), Apply(s, step));
    case BeginClose(k, w) => BeginCloseKeeps(s, k, w, Apply(s, step));
    case Kill(k) => KillKeeps(s, k, Apply(s, step));
    case Go(k) => ProceedKeeps(s, k);
  }

  // ---- Runs ----

  /** A pipe just made, before any process has used it. */
  ghost predicate Initial(s: System)
  {
    && Shaped(s) && s.ring.nread == 0 && s.ring.nwrite == 0 && s.stored == [] && s.returned == []
    && s.readopen && s.writeopen && s.lock == Free && s.table == Free && s.readCloser == Free && s.writeCloser == Free
    && !s.freed && !s.lost
    && forall k {:trigger s.th[k]} {:trigger s.killed[k]} :: 0 <= k < |s.th| ==> s.th[k] == Idle && !s.killed[k]
  }

  ghost predicate Follows(s: System, step: Step, s': System)
  {
    Shaped(s) && Enabled(s, step) && s' == Apply(s, step)
  }

  /** Each state follows from the one before by a step of some process. */
  ghost predicate IsRun(states: seq<System>, steps: seq<Step>)
  {
    && |states| == |steps| + 1 && Initial(states[0])
    && forall n {:trigger steps[n]} :: 0 <= n < |steps| ==> Follows(states[n], steps[n], states[n + 1])
  }

  lemma {:induction false} RunKeeps(states: seq<System>, steps: seq<Step>, n: nat)
    requires IsRun(states, steps) && n < |states|
    ensures Invariant(states[n])
  {
    if n == 0 {
      forall k | 0 <= k < |states[0].th| ensures Fine(states[0], k) {
        assert states[0].th[k] == Idle;
      }
    } else {
      RunKeeps(states, steps, n - 1);
      assert Follows(states[n - 1], steps[n - 1], states[n]);
      StepKeeps(states[n - 1], steps[n - 1]);
    }
  }

  /** In every state of every run the bytes returned are a prefix of the bytes stored, at most 512 behind. */
  lemma Fifo(states: seq<System>, steps: seq<Step>, n: nat)
    requires IsRun(states, steps) && n < |states|
    ensures var s := states[n];
            s.returned <= s.stored && |s.stored| - |s.returned| <= PIPESIZE
            && (s.ring.nwrite - s.ring.nread) % TWO32 == |s.stored| - |s.returned|
  {
    RunKeeps(states, steps, n);
    CountersApart(|states[n].returned|, |states[n].stored|);
  }

  lemma CountersApart(a: nat, b: nat)
    requires a <= b <= a + PIPESIZE
    ensures (b % TWO32 - a % TWO32) % TWO32 == b - a
  {
    var q, p := a / TWO32, b / TWO32;
    assert a == q * TWO32 + a % TWO32 && b == p * TWO32 + b % TWO32;
    assert b % TWO32 - a % TWO32 == (q - p) * TWO32 + (b - a);
  }

  /** What a call of piperead is about to return is the piece of the stream last taken. */
  lemma ReadsContiguous(states: seq<System>, steps: seq<Step>, n: nat, k: nat)
    requires IsRun(states, steps) && n < |states| && k < |states[n].th| && states[n].th[k].Finish?
    requires states[n].th[k].task.Read?
    ensures var s := states[n]; var got := s.th[k].got;
            |got| <= |s.returned| <= |s.stored| && got == s.stored[|s.returned| - |got|..|s.returned|]
  {
    RunKeeps(states, steps, n);
    assert Fine(states[n], k);
  }

  /** With the pipe's lock free and no killed writer to blame, whoever is asleep has to wait. */
  lemma NoLostWakeup(states: seq<System>, steps: seq<Step>, n: nat, k: nat)
    requires IsRun(states, steps) && n < |states| && k < |states[n].th| && states[n].lock == Free
    ensures var s := states[n];
            && (s.th[k].Asleep? && s.th[k].task.Read? && !s.lost ==> |s.stored| == |s.returned| && s.writeopen)
            && (s.th[k].Asleep? && s.th[k].task.Write? ==> |s.stored| == |s.returned| + PIPESIZE && s.readopen)
  {
    RunKeeps(states, steps, n);
    assert Fine(states[n], k);
  }

  /** Nobody is inside the pipe once its page has been freed. */
  lemma NoUseAfterFree(states: seq<System>, steps: seq<Step>, n: nat, k: nat)
    requires IsRun(states, steps) && n < |states| && k < |states[n].th| && states[n].freed
    ensures states[n].th[k] == Idle
  {
    RunKeeps(states, steps, n);
    assert Fine(states[n], k);
  }

  /** Nobody has been killed and no reader stranded. */
  ghost predicate Spared(s: System)
  {
    !s.lost && forall k {:trigger s.killed[k]} :: 0 <= k < |s.killed| ==> !s.killed[k]
  }

  /** Only a killed writer can strand readers: if the read end is closed there are none. */
  lemma SparedKeeps(s: System, step: Step)
    requires Invariant(s) && Enabled(s, step) && Spared(s) && !step.Kill?
    ensures Spared(Apply(s, step))
  {
    if step.Go? && !s.readopen {
      forall j | 0 <= j < |s.th| ensures !Sleeps(s.th[j], false) {
        assert Fine(s, j);
      }
    }
  }

  /** In a run without kill, no wakeup is ever lost. */
  lemma {:induction false} NoKillNoLoss(states: seq<System>, steps: seq<Step>, n: nat)
    requires IsRun(states, steps) && n < |states|
    requires forall i {:trigger steps[i]} :: 0 <= i < |steps| ==> !steps[i].Kill?
    ensures Spared(states[n])
  {
    if n > 0 {
      NoKillNoLoss(states, steps, n - 1);
      RunKeeps(states, steps, n - 1);
      assert Follows(states[n - 1], steps[n - 1], states[n]);
      SparedKeeps(states[n - 1], steps[n - 1]);
    }
  }

  /**
  A killed writer that finds the pipe full returns without waking the readers. Once it has released the
  lock, readers are left asleep beside a full pipe exactly when some were asleep as it gave up.
  */
  lemma StrandedIff(s: System, k: nat)
    requires Invariant(s) && !s.lost && k < |s.th| && s.th[k].Test? && s.th[k].task.Write?
    requires s.th[k].task.i < |s.th[k].task.src| && Full(s.ring) && s.readopen && s.killed[k]
    ensures var s1 := Proceed(s, k);
            && s1.th[k] == Leave(true)
            && var s2 := Proceed(s1, k);
               s2.lock == Free && IsFull(s2) && (ReaderSleeps(s2) <==> ReaderSleeps(s))
                   && (ReaderSleeps(s) ==> s.th[k].news)
  {
    Tests(s.ring, s.stored, |s.returned|);
    var s1 := Proceed(s, k);
    var s2 := Proceed(s1, k);
    assert Fine(s, k);
    if ReaderSleeps(s) {
      var j :| 0 <= j < |s.th| && Sleeps(s.th[j], false);
      assert Fine(s, j);
      assert s2.th[j] == s.th[j];
    }
    if ReaderSleeps(s2) {
      var j :| 0 <= j < |s2.th| && Sleeps(s2.th[j], false);
      assert s2.th[j] == s.th[j];
    }
  }
}
