/**
The process table over whole runs: every interleaving of scheduling, sleeping, waking, killing,
forking, exiting and waiting, at the granularity of ptable.lock.
*/
module ProcRuns {
  import opened ProcTable

  /** Where a process is in the kernel, as far as other processes can tell. */
  datatype Where = Elsewhere | Forking(slot: nat) | Forked(slot: nat) | InWait

  /** What became of the process born with some stamp. */
  datatype Fate = Living(slot: nat) | Dead(slot: nat) | Reaped(parent: nat) | Aborted

  /**
  The table, where each process is, which process is making each EMBRYO, and for every process ever
  started, by order of birth, what became of it.
  */
  datatype System = System(t: Table, at: seq<Where>, maker: seq<nat>, birth: seq<nat>, fates: seq<Fate>, nextpid: Pid,
                           init: nat)

  datatype Step =
    | Schedule(i: nat)                 // the scheduler picks i
    | Yield(i: nat)
    | Sleep(i: nat, c: Chan)           // any sleep but wait's
    | Wakeup(c: Chan)                  // any wakeup but exit's
    | Kill(j: nat)
    | ForkAlloc(i: nat, j: nat)        // allocproc, called by i
    | ForkAbort(i: nat)                // no kernel stack or no page table
    | ForkParent(i: nat)               // np->parent = proc
    | ForkDone(i: nat)                 // np->state = RUNNABLE
    | Exit(i: nat)
    | Wait(i: nat, r: Scan)            // one scan of wait

  predicate Alive(p: Proc)
  {
    p.state == SLEEPING || p.state == RUNNABLE || p.state == RUNNING
  }

  predicate Sized(s: System)
  {
    |s.at| == NPROC && |s.maker| == NPROC && |s.birth| == NPROC && s.init < NPROC
  }

  predicate Running(s: System, i: nat, w: Where)
    requires Sized(s)
  {
    i < NPROC && s.t[i].state == RUNNING && s.at[i] == w
  }

  ghost predicate Enabled(s: System, step: Step)
    requires Sized(s)
  {
    match step
    case Schedule(i) => i < NPROC && s.t[i].state == RUNNABLE
    case Yield(i) => i < NPROC && s.t[i].state == RUNNING
    case Sleep(i, c) => Running(s, i, Elsewhere) && c.OnOther?
    case Wakeup(c) => c.OnOther?
    case Kill(j) => j < NPROC
    case ForkAlloc(i, j) => Running(s, i, Elsewhere) && j < NPROC && s.t[j].state == UNUSED
                            && forall k :: 0 <= k < j ==> s.t[k].state != UNUSED
    case ForkAbort(i) => i < NPROC && s.at[i].Forking? && Running(s, i, s.at[i])
    case ForkParent(i) => i < NPROC && s.at[i].Forking? && Running(s, i, s.at[i])
    case ForkDone(i) => i < NPROC && s.at[i].Forked? && Running(s, i, s.at[i])
    case Exit(i) => Running(s, i, Elsewhere) && i != s.init
    case Wait(i, r) => (Running(s, i, Elsewhere) || Running(s, i, InWait)) && Found(s.t, i, r)
  }

  ghost function Set(s: System, i: nat, p: Proc): System
    requires i < NPROC
  {
    s.(t := s.t[i := p])
  }

  ghost function Move(s: System, i: nat, w: Where): System
    requires Sized(s) && i < NPROC
  {
    s.(at := s.at[i := w])
  }

  ghost predicate Stamped(s: System, i: nat)
    requires Sized(s)
  {
    i < NPROC && s.birth[i] < |s.fates|
  }

  ghost function Fare(s: System, i: nat, f: Fate): System
    requires Sized(s) && Stamped(s, i)
  {
    s.(fates := s.fates[s.birth[i] := f])
  }

  ghost predicate Invariant(s: System)
  {
    && Sized(s)
    && Alive(s.t[s.init]) && s.t[s.init].parent == NoParent
    && (forall i {:trigger Settled(s, i)} :: 0 <= i < NPROC ==> Settled(s, i))
    && (forall x {:trigger Fated(s, x)} :: 0 <= x < |s.fates| ==> Fated(s, x))
  }

  /** All that the invariant says of slot i. */
  ghost predicate Settled(s: System, i: nat)
    requires Sized(s) && i < NPROC
  {
    Kin(s, i) && Placed(s, i) && Made(s, i) && Born(s, i) && Waits(s, i)
  }

  /** A parent is alive and someone else; every process but init has one; an UNUSED slot has none. */
  ghost predicate Kin(s: System, i: nat)
    requires Sized(s) && i < NPROC
  {
    var p := s.t[i];
    && (p.parent.Child? ==> p.parent.of < NPROC && p.parent.of != i && Alive(s.t[p.parent.of]))
    && (i != s.init && (Alive(p) || p.state == ZOMBIE) ==> p.parent.Child?)
    && (p.state == UNUSED ==> p.parent == NoParent)
  }

  /** A process in the middle of fork or wait is alive, and its embryo is one. */
  ghost predicate Placed(s: System, i: nat)
    requires Sized(s) && i < NPROC
  {
    match s.at[i]
    case Elsewhere => true
    case InWait => Alive(s.t[i])
    case Forking(j) =>
      && Alive(s.t[i]) && s.t[i].state != SLEEPING
      && j < NPROC && s.t[j].state == EMBRYO && s.maker[j] == i && s.t[j].parent == NoParent
    case Forked(j) =>
      && Alive(s.t[i]) && s.t[i].state != SLEEPING
      && j < NPROC && s.t[j].state == EMBRYO && s.maker[j] == i && s.t[j].parent == Child(i)
  }

  /** An embryo's maker is making it. */
  ghost predicate Made(s: System, j: nat)
    requires Sized(s) && j < NPROC
  {
    s.t[j].state == EMBRYO ==> s.maker[j] < NPROC && (s.at[s.maker[j]] == Forking(j) || s.at[s.maker[j]] == Forked(j))
  }

  /** The fate of whoever is in slot i. */
  ghost predicate Born(s: System, i: nat)
    requires Sized(s) && i < NPROC
  {
    s.t[i].state != UNUSED ==> Stamped(s, i) && s.fates[s.birth[i]] == if s.t[i].state == ZOMBIE then Dead(i)
        else Living(i)
  }

  /** Whoever is neither reaped nor aborted is in its slot. */
  ghost predicate Fated(s: System, x: nat)
    requires Sized(s) && x < |s.fates|
  {
    match s.fates[x]
    case Living(i) => i < NPROC && s.birth[i] == x && s.t[i].state != UNUSED && s.t[i].state != ZOMBIE
    case Dead(i) => i < NPROC && s.birth[i] == x && s.t[i].state == ZOMBIE
    case Reaped(_) => true
    case Aborted => true
  }

  /** A process asleep on a process is in wait, asleep on itself, has a child and has no zombie child. */
  ghost predicate Waits(s: System, i: nat)
    requires Sized(s) && i < NPROC
  {
    s.t[i].state == SLEEPING ==>
      && s.t[i].chan != NoChan
      && (s.t[i].chan.OnProc? ==>
            s.t[i].chan == OnProc(i) && s.at[i] == InWait && !ZombieChild(s.t, i, NPROC) && AnyChild(s.t, i, NPROC))
  }

  /** The slots a step names exist. */
  ghost predicate Grounded(s: System, step: Step)
    requires Sized(s) && Enabled(s, step)
  {
    match step
    case ForkAbort(i) => Stamped(s, s.at[i].slot)
    case ForkParent(i) => s.at[i].slot < NPROC
    case ForkDone(i) => s.at[i].slot < NPROC
    case Exit(i) => Stamped(s, i)
    case Wait(i, Reap(k)) => Stamped(s, k)
    case _ => true
  }

  lemma StepsGrounded(s: System, step: Step)
    requires Invariant(s) && Enabled(s, step)
    ensures Grounded(s, step)
  {
    match step
    case ForkAbort(i) =>
      assert Settled(s, i);
      assert Settled(s, s.at[i].slot);
    case ForkParent(i) => assert Settled(s, i);
    case ForkDone(i) => assert Settled(s, i);
    case Exit(i) => assert Settled(s, i);
    case Wait(i, Reap(k)) => assert Settled(s, k);
    case _ =>
  }

  ghost function Apply(s: System, step: Step): System
    requires Sized(s) && Enabled(s, step) && Grounded(s, step)
  {
    match step
    case Schedule(i) => Set(s, i, s.t[i].(state := RUNNING, chan := NoChan))
    case Yield(i) => Set(s, i, s.t[i].(state := RUNNABLE))
    case Sleep(i, c) => Set(s, i, s.t[i].(state := SLEEPING, chan := c))
    case Wakeup(c) => s.(t := Woken(s.t, c))
    case Kill(j) => Set(s, j, Killed(s.t[j]))
    case ForkAlloc(i, j) =>
      s.(t := s.t[j := s.t[j].(state := EMBRYO, pid := s.nextpid)], nextpid := NextPid(s.nextpid),
         at := s.at[i := Forking(j)], maker := s.maker[j := i],
         birth := s.birth[j := |s.fates|], fates := s.fates + [Living(j)])
    case ForkAbort(i) =>
      var j := s.at[i].slot;
      Fare(Move(Set(s, j, s.t[j].(state := UNUSED)), i, Elsewhere), j, Aborted)
    case ForkParent(i) =>
      var j := s.at[i].slot;
      Move(Set(s, j, s.t[j].(parent := Child(i))), i, Forked(j))
    case ForkDone(i) =>
      var j := s.at[i].slot;
      Move(Set(s, j, s.t[j].(state := RUNNABLE)), i, Elsewhere)
    case Exit(i) => Fare(s.(t := AfterExit(s.t, i, s.init)), i, Dead(i))
    case Wait(i, r) =>
      match r
      case Reap(k) => Fare(Move(Set(s, k, Cleared(s.t[k])), i, Elsewhere), k, Reaped(i))
      case Give => Move(s, i, Elsewhere)
      case Doze => Move(Set(s, i, s.t[i].(state := SLEEPING, chan := OnProc(i))), i, InWait)
  }

  // ---- Each step keeps the invariant ----

  /** A change of state between SLEEPING, RUNNABLE and RUNNING that puts nobody to sleep. */
  ghost predicate Stirred(t: Table, u: Table)
  {
    forall i {:trigger u[i]} {:trigger t[i]} :: 0 <= i < NPROC ==>
      && u[i].parent == t[i].parent && (Alive(t[i]) <==> Alive(u[i])) && (!Alive(t[i]) ==> u[i].state == t[i].state)
      && (u[i].state == SLEEPING ==> t[i].state == SLEEPING && u[i].chan == t[i].chan)
  }

  lemma StirKeeps(s: System, u: Table)
    requires Invariant(s) && Stirred(s.t, u)
    ensures Invariant(s.(t := u))
  {
    var s' := s.(t := u);
    forall i | 0 <= i < NPROC ensures Settled(s', i) {
      assert Settled(s, i);
      if u[i].state == SLEEPING && u[i].chan.OnProc? {
        SameFamily(s.t, u, i);
      }
    }
    forall x | 0 <= x < |s.fates| ensures Fated(s', x) {
      assert Fated(s, x);
    }
  }

  lemma SameFamily(t: Table, u: Table, of: nat)
    requires Stirred(t, u)
    ensures ZombieChild(u, of, NPROC) <==> ZombieChild(t, of, NPROC)
    ensures AnyChild(u, of, NPROC) <==> AnyChild(t, of, NPROC)
  {
    assert forall i :: 0 <= i < NPROC ==> (IsChild(t, i, of) <==> IsChild(u, i, of));
  }

  lemma EasySteps(s: System, step: Step)
    requires Invariant(s) && Enabled(s, step) && Grounded(s, step)
    requires (step.Schedule? || step.Yield? || step.Wakeup? || step.Kill?)
    ensures Invariant(Apply(s, step))
  {
    StirKeeps(s, Apply(s, step).t);
  }

  /** Two tables in which `of` has the same children, the same of them zombies. */
  lemma FamilyKept(t: Table, u: Table, of: nat)
    requires forall i {:trigger IsChild(u, i, of)} :: 0 <= i < NPROC ==>
               (IsChild(u, i, of) <==> IsChild(t, i, of))
                   && (IsChild(t, i, of) ==> (u[i].state == ZOMBIE <==> t[i].state == ZOMBIE))
    ensures ZombieChild(u, of, NPROC) <==> ZombieChild(t, of, NPROC)
    ensures AnyChild(u, of, NPROC) <==> AnyChild(t, of, NPROC)
  {
    if AnyChild(t, of, NPROC) {
      var i :| 0 <= i < NPROC && IsChild(t, i, of);
      assert IsChild(u, i, of);
    }
    if ZombieChild(t, of, NPROC) {
      var i :| 0 <= i < NPROC && IsChild(t, i, of) && t[i].state == ZOMBIE;
      assert IsChild(u, i, of);
    }
  }

  /** Whoever is asleep in wait in s' was so in s, with the same family. */
  ghost predicate StillWaits(s: System, s': System, i: nat)
    requires Sized(s) && Sized(s') && i < NPROC
  {
    s'.t[i].state == SLEEPING && s'.t[i].chan.OnProc? ==>
      && s.t[i] == s'.t[i] && s.at[i] == s'.at[i]
      && forall j {:trigger IsChild(s'.t, j, i)} :: 0 <= j < NPROC ==>
           (IsChild(s'.t, j, i) <==> IsChild(s.t, j, i))
               && (IsChild(s.t, j, i) ==> (s'.t[j].state == ZOMBIE <==> s.t[j].state == ZOMBIE))
  }

  lemma WaitsKept(s: System, s': System, i: nat)
    requires Sized(s) && Sized(s') && i < NPROC && Waits(s, i) && StillWaits(s, s', i)
    requires s'.t[i].state == SLEEPING ==> s'.t[i].chan != NoChan
    ensures Waits(s', i)
  {
    if s'.t[i].state == SLEEPING && s'.t[i].chan.OnProc? {
      FamilyKept(s.t, s'.t, i);
    }
  }

  lemma SleepKeeps(s: System, i: nat, c: Chan)
    requires Invariant(s) && Enabled(s, Sleep(i, c))
    ensures Invariant(Apply(s, Sleep(i, c)))
  {
    var s' := Apply(s, Sleep(i, c));
    forall j | 0 <= j < NPROC ensures Settled(s', j) {
      assert Settled(s, j);
      WaitsKept(s, s', j);
    }
    forall x | 0 <= x < |s.fates| ensures Fated(s', x) {
      assert Fated(s, x);
    }
  }

  lemma ForkAllocKeeps(s: System, i: nat, k: nat)
    requires Invariant(s) && Enabled(s, ForkAlloc(i, k))
    ensures Invariant(Apply(s, ForkAlloc(i, k)))
  {
    var s' := Apply(s, ForkAlloc(i, k));
    assert Settled(s, k) && Settled(s, i);
    forall j | 0 <= j < NPROC ensures Settled(s', j) {
      assert Settled(s, j);
      WaitsKept(s, s', j);
    }
    forall x | 0 <= x < |s'.fates| ensures Fated(s', x) {
      assert x < |s.fates| ==> Fated(s, x);
    }
  }

  lemma ForkAbortKeeps(s: System, i: nat)
    requires Invariant(s) && Enabled(s, ForkAbort(i)) && Grounded(s, ForkAbort(i))
    ensures Invariant(Apply(s, ForkAbort(i)))
  {
    var s' := Apply(s, ForkAbort(i));
    assert Settled(s, i);
    var k := s.at[i].slot;
    assert Settled(s, k);
    forall j | 0 <= j < NPROC ensures Settled(s', j) {
      assert Settled(s, j);
      WaitsKept(s, s', j);
    }
    forall x | 0 <= x < |s'.fates| ensures Fated(s', x) {
      assert Fated(s, x);
    }
  }

  lemma ForkParentKeeps(s: System, i: nat)
    requires Invariant(s) && Enabled(s, ForkParent(i)) && Grounded(s, ForkParent(i))
    ensures Invariant(Apply(s, ForkParent(i)))
  {
    var s' := Apply(s, ForkParent(i));
    assert Settled(s, i);
    var k := s.at[i].slot;
    assert Settled(s, k);
    forall j | 0 <= j < NPROC ensures Settled(s', j) {
      assert Settled(s, j);
      WaitsKept(s, s', j);
    }
    forall x | 0 <= x < |s'.fates| ensures Fated(s', x) {
      assert Fated(s, x);
    }
  }

  lemma ForkDoneKeeps(s: System, i: nat)
    requires Invariant(s) && Enabled(s, ForkDone(i)) && Grounded(s, ForkDone(i))
    ensures Invariant(Apply(s, ForkDone(i)))
  {
    var s' := Apply(s, ForkDone(i));
    assert Settled(s, i);
    var k := s.at[i].slot;
    assert Settled(s, k);
    forall j | 0 <= j < NPROC ensures Settled(s', j) {
      assert Settled(s, j);
      WaitsKept(s, s', j);
    }
    forall x | 0 <= x < |s'.fates| ensures Fated(s', x) {
      assert Fated(s, x);
    }
  }

  lemma ReapKeeps(s: System, i: nat, k: nat)
    requires Invariant(s) && Enabled(s, Wait(i, Reap(k))) && Grounded(s, Wait(i, Reap(k)))
    ensures Invariant(Apply(s, Wait(i, Reap(k))))
  {
    var s' := Apply(s, Wait(i, Reap(k)));
    assert Settled(s, k) && Settled(s, i);
    forall j | 0 <= j < NPROC ensures Settled(s', j) {
      assert Settled(s, j);
      WaitsKept(s, s', j);
    }
    forall x | 0 <= x < |s'.fates| ensures Fated(s', x) {
      assert Fated(s, x);
    }
  }

  lemma GiveKeeps(s: System, i: nat)
    requires Invariant(s) && Enabled(s, Wait(i, Give))
    ensures Invariant(Apply(s, Wait(i, Give)))
  {
    var s' := Apply(s, Wait(i, Give));
    forall j | 0 <= j < NPROC ensures Settled(s', j) {
      assert Settled(s, j);
    }
    forall x | 0 <= x < |s'.fates| ensures Fated(s', x) {
      assert Fated(s, x);
    }
  }

  lemma DozeKeeps(s: System, i: nat)
    requires Invariant(s) && Enabled(s, Wait(i, Doze))
    ensures Invariant(Apply(s, Wait(i, Doze)))
  {
    var s' := Apply(s, Wait(i, Doze));
    FamilyKept(s.t, s'.t, i);
    forall j | 0 <= j < NPROC ensures Settled(s', j) {
      assert Settled(s, j);
      if j != i {
        WaitsKept(s, s', j);
      }
    }
    forall x | 0 <= x < |s'.fates| ensures Fated(s', x) {
      assert Fated(s, x);
    }
  }

  /** What exit does to a slot other than the exiting one. */
  lemma ExitEffect(t: Table, me: nat, init: nat, i: nat)
    requires me < NPROC && i < NPROC && t[me].parent.Child?
    ensures var q := AfterExit(t, me, init)[i];
            && q.parent == (if t[i].parent == Child(me) then Child(init) else t[i].parent)
            && (i == me ==> q.state == ZOMBIE)
            && (i != me ==> (Alive(q) <==> Alive(t[i])) && (!Alive(t[i]) ==> q.state == t[i].state))
            && (i != me && q.state == SLEEPING ==>
                t[i].state == SLEEPING && q.chan == t[i].chan && t[i].chan != OnProc(t[me].parent.of))
  {
  }

  /** If me leaves a zombie child behind, init is not left asleep in wait. */
  lemma ExitWakesInit(t: Table, me: nat, init: nat, z: nat)
    requires me < NPROC && init < NPROC && init != me && t[me].parent.Child? && IsChild(t, z, me)
    requires t[z].state == ZOMBIE
    ensures var q := AfterExit(t, me, init)[init]; q.state == SLEEPING ==> q.chan != OnProc(init)
  {
    var u := Woken(t, OnProc(t[me].parent.of));
    assert IsChild(u, z, me) && u[z].state == ZOMBIE;
    assert ZombieChild(u, me, NPROC);
  }

  lemma ExitKin(s: System, me: nat, i: nat)
    requires Invariant(s) && Enabled(s, Exit(me)) && Grounded(s, Exit(me)) && i < NPROC
    ensures var s' := Apply(s, Exit(me)); Kin(s', i) && Placed(s', i) && Made(s', i) && Born(s', i)
  {
    hide Waits;
    hide AfterExit;
    assert Settled(s, i) && Settled(s, me) && Settled(s, s.init);
    ExitEffect(s.t, me, s.init, i);
    ExitEffect(s.t, me, s.init, s.init);
    if s.t[i].parent.Child? {
      ExitEffect(s.t, me, s.init, s.t[i].parent.of);
    }
    if s.at[i].Forking? || s.at[i].Forked? {
      ExitEffect(s.t, me, s.init, s.at[i].slot);
    }
  }

  /** Nobody is left asleep in wait with a zombie child, nor without a child. */
  lemma ExitWaits(s: System, me: nat, i: nat)
    requires Invariant(s) && Enabled(s, Exit(me)) && Grounded(s, Exit(me)) && i < NPROC
    ensures Waits(Apply(s, Exit(me)), i)
  {
    var t, u := s.t, AfterExit(s.t, me, s.init);
    assert Settled(s, i) && Settled(s, me);
    ExitEffect(t, me, s.init, i);
    if u[i].state == SLEEPING && u[i].chan.OnProc? {
      var c :| 0 <= c < NPROC && IsChild(t, c, i);
      ExitEffect(t, me, s.init, c);
      assert IsChild(u, c, i);
      forall j | 0 <= j < NPROC && IsChild(u, j, i) ensures u[j].state != ZOMBIE {
        ExitEffect(t, me, s.init, j);
        assert IsChild(t, j, i) ==> t[j].state != ZOMBIE;
        if t[j].parent == Child(me) && t[j].state == ZOMBIE {
          ExitWakesInit(t, me, s.init, j);
        }
      }
    }
  }

  lemma ExitKeeps(s: System, me: nat)
    requires Invariant(s) && Enabled(s, Exit(me)) && Grounded(s, Exit(me))
    ensures Invariant(Apply(s, Exit(me)))
  {
    var s' := Apply(s, Exit(me));
    assert Settled(s, me) && Settled(s, s.init);
    ExitEffect(s.t, me, s.init, s.init);
    forall i | 0 <= i < NPROC ensures Settled(s', i) {
      ExitKin(s, me, i);
      ExitWaits(s, me, i);
    }
    forall x | 0 <= x < |s'.fates| ensures Fated(s', x) {
      assert Fated(s, x);
      if s.fates[x].Living? || s.fates[x].Dead? {
        ExitEffect(s.t, me, s.init, s.fates[x].slot);
      }
    }
  }

  /** Every step of any process keeps the invariant. */
  lemma StepKeeps(s: System, step: Step)
    requires Invariant(s) && Enabled(s, step)
    ensures Grounded(s, step) && Invariant(Apply(s, step))
  {
    StepsGrounded(s, step);
    match step
    case Schedule(_) => EasySteps(s, step);
    case Yield(_) => EasySteps(s, step);
    case Wakeup(_) => EasySteps(s, step);
    case Kill(_) => EasySteps(s, step);
    case Sleep(i, c) => SleepKeeps(s, i, c);
    case ForkAlloc(i, j) => ForkAllocKeeps(s, i, j);
    case ForkAbort(i) => ForkAbortKeeps(s, i);
    case ForkParent(i) => ForkParentKeeps(s, i);
    case ForkDone(i) => ForkDoneKeeps(s, i);
    case Exit(i) => ExitKeeps(s, i);
    case Wait(i, Reap(k)) => ReapKeeps(s, i, k);
    case Wait(i, Give) => GiveKeeps(s, i);
    case Wait(i, Doze) => DozeKeeps(s, i);
  }

  // ---- Runs ----

  /** The system when the first process has been set up and nothing has run yet. */
  ghost predicate Initial(s: System)
  {
    && Sized(s) && s.fates == [Living(s.init)] && s.nextpid == 2
    && forall i {:trigger s.t[i]} :: 0 <= i < NPROC ==>
         && s.at[i] == Elsewhere && s.birth[i] == 0 && s.t[i].parent == NoParent && s.t[i].chan == NoChan
         && !s.t[i].killed && s.t[i].pid == (if i == s.init then 1 else 0)
         && s.t[i].state == if i == s.init then RUNNABLE else UNUSED
  }

  /** Each state of the run follows from the one before by a step. */
  ghost predicate IsRun(states: seq<System>, steps: seq<Step>)
  {
    && |states| == |steps| + 1 && Initial(states[0])
    && forall k {:trigger steps[k]} :: 0 <= k < |steps| ==> Follows(states[k], steps[k], states[k + 1])
  }

  ghost predicate Follows(s: System, step: Step, s': System)
  {
    Sized(s) && Enabled(s, step) && (Grounded(s, step) ==> s' == Apply(s, step))
  }

  lemma InitialHolds(s: System)
    requires Initial(s)
    ensures Invariant(s)
  {
    forall i | 0 <= i < NPROC ensures Settled(s, i) {
      assert s.t[i].parent == NoParent;
    }
  }

  /** The invariant holds in every state of every run. */
  lemma {:induction false} RunKeeps(states: seq<System>, steps: seq<Step>, k: nat)
    requires IsRun(states, steps) && k < |states|
    ensures Invariant(states[k])
  {
    if k == 0 {
      InitialHolds(states[0]);
    } else {
      RunKeeps(states, steps, k - 1);
      assert Follows(states[k - 1], steps[k - 1], states[k]);
      StepKeeps(states[k - 1], steps[k - 1]);
    }
  }

  /** In no state of any run is a process asleep in wait while it has a zombie child. */
  lemma NoMissedExit(states: seq<System>, steps: seq<Step>, k: nat, i: nat, z: nat)
    requires IsRun(states, steps) && k < |states| && i < NPROC && z < NPROC
    ensures var t := states[k].t;
            t[z].state == ZOMBIE && t[z].parent == Child(i) ==> !(t[i].state == SLEEPING && t[i].chan.OnProc?)
  {
    RunKeeps(states, steps, k);
    assert Settled(states[k], i);
    assert IsChild(states[k].t, z, i) ==> states[k].t[z].state == ZOMBIE ==> ZombieChild(states[k].t, i, NPROC);
  }

  /** In every state of every run a zombie has a parent, which is neither UNUSED nor a zombie. */
  lemma ZombieHasParent(states: seq<System>, steps: seq<Step>, k: nat, z: nat)
    requires IsRun(states, steps) && k < |states| && z < NPROC && states[k].t[z].state == ZOMBIE
    ensures var t := states[k].t;
            t[z].parent.Child? && t[z].parent.of < NPROC && t[t[z].parent.of].state != UNUSED
                && t[t[z].parent.of].state != ZOMBIE
  {
    RunKeeps(states, steps, k);
    assert Settled(states[k], z);
  }

  /** Fates only move forward: from Living to Dead or Aborted, and from Dead to Reaped, where they stay. */
  ghost predicate Later(f: Fate, g: Fate)
  {
    || g == f
    || (f.Living? && (g == Dead(f.slot) || g == Aborted))
    || (f.Dead? && g.Reaped?)
  }

  lemma FatesMove(s: System, step: Step, x: nat)
    requires Invariant(s) && Enabled(s, step) && Grounded(s, step) && x < |s.fates|
    ensures var s' := Apply(s, step);
            |s'.fates| >= |s.fates| && Later(s.fates[x], s'.fates[x])
            && (s'.fates[x].Reaped? && !s.fates[x].Reaped? ==>
                  step.Wait? && step.r.Reap? && s.t[step.r.slot].parent == Child(step.i)
                      && s.fates[x] == Dead(step.r.slot))
  {
    match step
    case ForkAbort(i) =>
      assert Settled(s, i);
      assert Settled(s, s.at[i].slot);
    case Exit(i) => assert Settled(s, i);
    case Wait(i, Reap(k)) => assert Settled(s, k);
    case _ =>
  }

  /** Once reaped, a process stays reaped: no wait returns it again. */
  lemma {:induction false} ReapedOnce(states: seq<System>, steps: seq<Step>, j: nat, k: nat, x: nat)
    requires IsRun(states, steps) && j <= k < |states| && x < |states[j].fates|
    ensures x < |states[k].fates| && (states[j].fates[x].Reaped? ==> states[k].fates[x] == states[j].fates[x])
    decreases k - j
  {
    if j < k {
      ReapedOnce(states, steps, j, k - 1, x);
      RunKeeps(states, steps, k - 1);
      assert Follows(states[k - 1], steps[k - 1], states[k]);
      StepKeeps(states[k - 1], steps[k - 1]);
      FatesMove(states[k - 1], steps[k - 1], x);
    }
  }

  // ---- What a step does, field by field ----

  predicate Reaps(step: Step, i: nat)
  {
    step.Wait? && step.r == Reap(i)
  }

  /** The embryo a step of fork works on. */
  predicate MakesSlot(s: System, k: nat, i: nat)
    requires Sized(s)
  {
    k < NPROC && (s.at[k] == Forking(i) || s.at[k] == Forked(i))
  }

  ghost predicate ExitRouses(t: Table, k: nat, init: nat, i: nat)
    requires k < NPROC && i < NPROC
  {
    || t[i].chan == (if t[k].parent.Child? then OnProc(t[k].parent.of) else NoChan)
    || (t[i].chan == OnProc(init) && ZombieChild(t, k, NPROC))
  }

  /** The step wakes whoever sleeps in slot i: kill, a wakeup on its channel, an exit of its child or of init's kin. */
  ghost predicate Rouses(s: System, step: Step, i: nat)
    requires Sized(s) && i < NPROC
  {
    match step
    case Kill(j) => j == i
    case Wakeup(c) => s.t[i].chan == c
    case Exit(k) => k < NPROC && ExitRouses(s.t, k, s.init, i)
    case _ => false
  }

  /** The state slot i is put in outright. */
  ghost function Puts(s: System, step: Step, i: nat): Pstate
    requires Sized(s) && i < NPROC
  {
    match step
    case Schedule(j) => if j == i then RUNNING else s.t[i].state
    case Yield(j) => if j == i then RUNNABLE else s.t[i].state
    case Sleep(j, _) => if j == i then SLEEPING else s.t[i].state
    case ForkAlloc(_, j) => if j == i then EMBRYO else s.t[i].state
    case ForkAbort(k) => if MakesSlot(s, k, i) then UNUSED else s.t[i].state
    case ForkDone(k) => if MakesSlot(s, k, i) then RUNNABLE else s.t[i].state
    case Exit(k) => if k == i then ZOMBIE else s.t[i].state
    case Wait(k, r) => if r == Reap(i) then UNUSED else if r == Doze && k == i then SLEEPING else s.t[i].state
    case _ => s.t[i].state
  }

  /** Slot i before and after any step. */
  lemma StepFields(s: System, step: Step, i: nat)
    requires Sized(s) && Enabled(s, step) && Grounded(s, step) && i < NPROC
    ensures var p, q := s.t[i], Apply(s, step).t[i];
            && q.state == (if p.state == SLEEPING && Puts(s, step, i) == SLEEPING && Rouses(s, step, i) then RUNNABLE
                           else Puts(s, step, i))
            && (q.killed <==> step == Kill(i) || (p.killed && !Reaps(step, i)))
            && q.pid == (if step.ForkAlloc? && step.j == i then s.nextpid else if Reaps(step, i) then 0 else p.pid)
            && q.parent == (if Reaps(step, i) then NoParent
                            else if step.ForkParent? && MakesSlot(s, step.i, i) then Child(step.i)
                            else if step.Exit? && p.parent == Child(step.i) then Child(s.init) else p.parent)
            && q.chan == (if step == Schedule(i) then NoChan else if step.Sleep? && step.i == i then step.c
                          else if step == Wait(i, Doze) then OnProc(i) else p.chan)
  {
    if step.Exit? {
      ExitFields(s.t, step.i, s.init, i);
    }
  }

  lemma ExitFields(t: Table, me: nat, init: nat, i: nat)
    requires me < NPROC && i < NPROC
    ensures var p, q := t[i], AfterExit(t, me, init)[i];
            && q.state == (if i == me then ZOMBIE
                           else if p.state == SLEEPING && ExitRouses(t, me, init, i) then RUNNABLE else p.state)
            && q.killed == p.killed && q.pid == p.pid && q.chan == p.chan
            && q.parent == (if p.parent == Child(me) then Child(init) else p.parent)
  {
    var u := if t[me].parent.Child? then Woken(t, OnProc(t[me].parent.of)) else Woken(t, NoChan);
    assert forall j | 0 <= j < NPROC :: IsChild(u, j, me) <==> IsChild(t, j, me);
    FamilyKept(t, u, me);
  }

  // ---- Kills and pids over whole runs ----

  lemma RunStep(states: seq<System>, steps: seq<Step>, k: nat)
    requires IsRun(states, steps) && k < |steps|
    ensures Invariant(states[k]) && Enabled(states[k], steps[k]) && Grounded(states[k], steps[k])
    ensures states[k + 1] == Apply(states[k], steps[k])
  {
    RunKeeps(states, steps, k);
    assert Follows(states[k], steps[k], states[k + 1]);
    StepKeeps(states[k], steps[k]);
  }

  /** Right after a kill its target is marked and not asleep. */
  lemma KillWakes(states: seq<System>, steps: seq<Step>, k: nat, i: nat)
    requires IsRun(states, steps) && k < |steps| && steps[k] == Kill(i)
    ensures states[k + 1].t[i].killed && states[k + 1].t[i].state != SLEEPING
  {
    RunStep(states, steps, k);
    StepFields(states[k], steps[k], i);
  }

  lemma MarkMoves(states: seq<System>, steps: seq<Step>, k: nat, i: nat)
    requires IsRun(states, steps) && k < |steps| && i < NPROC
    ensures states[k + 1].t[i].killed <==> steps[k] == Kill(i) || (states[k].t[i].killed && !Reaps(steps[k], i))
  {
    RunStep(states, steps, k);
    StepFields(states[k], steps[k], i);
  }

  /** Step m killed slot i, and nobody has reaped the slot since. */
  ghost predicate KilledAt(steps: seq<Step>, m: nat, k: nat, i: nat)
  {
    m < k <= |steps| && steps[m] == Kill(i) && forall n | m < n < k :: !Reaps(steps[n], i)
  }

  ghost predicate EverKilled(steps: seq<Step>, k: nat, i: nat)
  {
    exists m :: KilledAt(steps, m, k, i)
  }

  /** A slot is marked exactly when it was killed and has not been reaped since, whoever was in it then. */
  lemma {:induction false} KilledIff(states: seq<System>, steps: seq<Step>, k: nat, i: nat)
    requires IsRun(states, steps) && k < |states| && i < NPROC
    ensures states[k].t[i].killed <==> EverKilled(steps, k, i)
  {
    if k > 0 {
      KilledIff(states, steps, k - 1, i);
      MarkMoves(states, steps, k - 1, i);
      MarkShows(steps, k - 1, i);
      hide IsRun;
      hide EverKilled;
    } else {
      assert Initial(states[0]);
    }
  }

  lemma MarkShows(steps: seq<Step>, k: nat, i: nat)
    requires k < |steps|
    ensures EverKilled(steps, k + 1, i) <==> steps[k] == Kill(i) || (EverKilled(steps, k, i) && !Reaps(steps[k], i))
  {
    var next := k + 1;
    if m :| KilledAt(steps, m, next, i) {
      assert m == k || KilledAt(steps, m, k, i);
    }
    if steps[k] == Kill(i) {
      assert KilledAt(steps, k, k + 1, i);
    } else if !Reaps(steps[k], i) {
      if m :| KilledAt(steps, m, k, i) {
        assert KilledAt(steps, m, k + 1, i);
      }
    }
  }

  /** The pid of the x-th process started, on a 32-bit int. */
  function PidOf(x: nat): Pid
  {
    (x + 0x8000_0001) % 0x1_0000_0000 - 0x8000_0000
  }

  lemma PidsFollow(x: nat)
    ensures NextPid(PidOf(x)) == PidOf(x + 1)
  {
  }

  /** Pids are handed out in order of birth. */
  ghost predicate Numbered(s: System)
    requires Sized(s)
  {
    && s.nextpid == PidOf(|s.fates|)
    && forall i {:trigger s.t[i]} :: 0 <= i < NPROC && s.t[i].state != UNUSED ==> s.t[i].pid == PidOf(s.birth[i])
  }

  lemma NumberedSlot(s: System, step: Step, i: nat)
    requires Invariant(s) && Numbered(s) && Enabled(s, step) && Grounded(s, step) && i < NPROC
    ensures var s' := Apply(s, step); s'.t[i].state != UNUSED ==> s'.t[i].pid == PidOf(s'.birth[i])
  {
    StepFields(s, step, i);
    hide PidOf;
    hide ZombieChild;
    hide AfterExit;
    hide Rouses;
    if step.ForkDone? || step.ForkAbort? {
      assert Settled(s, step.i);
    }
  }

  lemma {:induction false} PidsInOrder(states: seq<System>, steps: seq<Step>, k: nat)
    requires IsRun(states, steps) && k < |states|
    ensures Sized(states[k]) && Numbered(states[k])
  {
    if k == 0 {
      assert Initial(states[0]);
    } else {
      PidsInOrder(states, steps, k - 1);
      RunKeeps(states, steps, k);
      RunStep(states, steps, k - 1);
      PidsFollow(|states[k - 1].fates|);
      forall i | 0 <= i < NPROC && states[k].t[i].state != UNUSED
        ensures states[k].t[i].pid == PidOf(states[k].birth[i])
      {
        NumberedSlot(states[k - 1], steps[k - 1], i);
      }
      hide PidOf;
      hide Settled;
      hide Fated;
      hide Puts;
    }
  }

  /** Two processes have the same pid only if 2^32 processes were started from the one to the other. */
  lemma PidsApart(states: seq<System>, steps: seq<Step>, k: nat, i: nat, j: nat)
    requires IsRun(states, steps) && k < |states| && i < NPROC && j < NPROC && i != j
    requires states[k].t[i].state != UNUSED && states[k].t[j].state != UNUSED
    ensures Sized(states[k])
    ensures var x: int, y: int := states[k].birth[i], states[k].birth[j];
            x != y && (states[k].t[i].pid == states[k].t[j].pid <==> (x - y) % 0x1_0000_0000 == 0)
  {
    RunKeeps(states, steps, k);
    PidsInOrder(states, steps, k);
    assert Settled(states[k], i) && Settled(states[k], j);
    SamePid(states[k].birth[i], states[k].birth[j]);
  }

  lemma SamePid(x: int, y: int)
    requires 0 <= x && 0 <= y
    ensures PidOf(x) == PidOf(y) <==> (x - y) % 0x1_0000_0000 == 0
  {
  }

  /** kill(0) marks a free slot, since its pid is 0, and the next process made there is born marked. */
  lemma BornKilled() returns (states: seq<System>, steps: seq<Step>)
    ensures IsRun(states, steps) && |states| == 4 && steps == [Schedule(0), Kill(1), ForkAlloc(0, 1)]
    ensures states[1].t[1].state == UNUSED && states[1].t[1].pid == 0
    ensures states[3].t[1].state == EMBRYO && states[3].t[1].killed
  {
    var t := seq(NPROC, i requires 0 <= i < NPROC =>
                   Proc(if i == 0 then RUNNABLE else UNUSED, if i == 0 then 1 else 0, NoParent, NoChan, false));
    var s0 := System(t, seq(NPROC, _ => Elsewhere), seq(NPROC, _ => 0), seq(NPROC, _ => 0), [Living(0)], 2, 0);
    assert Initial(s0);
    var s1 := Apply(s0, Schedule(0));
    var s2 := Apply(s1, Kill(1));
    var s3 := Apply(s2, ForkAlloc(0, 1));
    states, steps := [s0, s1, s2, s3], [Schedule(0), Kill(1), ForkAlloc(0, 1)];
    assert Follows(s0, steps[0], s1) && Follows(s1, steps[1], s2) && Follows(s2, steps[2], s3);
  }
}
