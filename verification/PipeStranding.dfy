/**
A run in which a killed writer leaves a reader asleep beside a full pipe: the reader goes to sleep on the
empty pipe, the writer fills it, is killed, finds no room for one byte more and returns.
*/
module PipeStranding {
  import opened Basics
  import opened PipeRing
  import opened PipeRuns

  ghost function Last(states: seq<System>): System
    requires states != []
  {
    states[|states| - 1]
  }

  /** The steps of a run begin writes of at most n bytes. */
  ghost predicate ShortStep(step: Step, n: nat)
  {
    step.BeginWrite? ==> |step.src| <= n
  }

  /** A run whose writes have at most n bytes each. */
  ghost predicate ShortRun(states: seq<System>, steps: seq<Step>, n: nat)
  {
    IsRun(states, steps) && forall m {:trigger steps[m]} :: 0 <= m < |steps| ==> ShortStep(steps[m], n)
  }

  /** One step more. */
  lemma Next(states: seq<System>, steps: seq<Step>, step: Step, s': System, n: nat)
    returns (states': seq<System>, steps': seq<Step>)
    requires ShortRun(states, steps, n) && Follows(Last(states), step, s') && ShortStep(step, n)
    ensures ShortRun(states', steps', n) && Last(states') == s'
  {
    states', steps' := states + [s'], steps + [step];
    forall n {:trigger steps'[n]} | 0 <= n < |steps'| ensures Follows(states'[n], steps'[n], states'[n + 1]) {
      if n < |steps| {
        assert steps'[n] == steps[n];
      }
    }
  }

  /** Process 0 reads one byte, process 1 writes; both ends are open and nothing has been taken. */
  ghost function Two(r: Ring, reader: Pc, writer: Pc, lock: Holder, table: Holder, stored: seq<Byte>, killed: bool,
                     lost: bool): System
  {
    System(r, true, true, lock, table, [reader, writer], [false, killed], stored, [], Free, Free, false, lost)
  }

  lemma ReaderMoves(r: Ring)
    requires Sized(r) && r.nread == r.nwrite
    ensures var i, t := Idle, Read(1);
            && Follows(Two(r, i, i, Free, Free, [], false, false), BeginRead(0, 1),
                       Two(r, Enter(t), i, Free, Free, [], false, false))
            && Follows(Two(r, Enter(t), i, Free, Free, [], false, false), Go(0),
                       Two(r, Test(t, false), i, By(0), Free, [], false, false))
            && Follows(Two(r, Test(t, false), i, By(0), Free, [], false, false), Go(0),
                       Two(r, Sleep1(t), i, By(0), Free, [], false, false))
            && Follows(Two(r, Sleep1(t), i, By(0), Free, [], false, false), Go(0),
                       Two(r, Sleep2(t), i, By(0), By(0), [], false, false))
            && Follows(Two(r, Sleep2(t), i, By(0), By(0), [], false, false), Go(0),
                       Two(r, Sleep3(t), i, Free, By(0), [], false, false))
            && Follows(Two(r, Sleep3(t), i, Free, By(0), [], false, false), Go(0),
                       Two(r, Asleep(t), i, Free, Free, [], false, false))
  {
  }

  /** The reader of the empty pipe goes to sleep. */
  lemma ReaderSleepsFirst(r: Ring, n: nat) returns (states: seq<System>, steps: seq<Step>)
    requires Sized(r) && r.nread == r.nwrite == 0
    ensures ShortRun(states, steps, n) && Last(states) == Two(r, Asleep(Read(1)), Idle, Free, Free, [], false, false)
  {
    ReaderMoves(r);
    states, steps := [Two(r, Idle, Idle, Free, Free, [], false, false)], [];
    hide Follows;
    var t := Read(1);
    states, steps := Next(states, steps, BeginRead(0, 1), Two(r, Enter(t), Idle, Free, Free, [], false, false), n);
    states, steps := Next(states, steps, Go(0), Two(r, Test(t, false), Idle, By(0), Free, [], false, false), n);
    states, steps := Next(states, steps, Go(0), Two(r, Sleep1(t), Idle, By(0), Free, [], false, false), n);
    states, steps := Next(states, steps, Go(0), Two(r, Sleep2(t), Idle, By(0), By(0), [], false, false), n);
    states, steps := Next(states, steps, Go(0), Two(r, Sleep3(t), Idle, Free, By(0), [], false, false), n);
    states, steps := Next(states, steps, Go(0), Two(r, Asleep(t), Idle, Free, Free, [], false, false), n);
  }

  /** The writer with i bytes of src stored, at its loop test, beside the sleeping reader. */
  ghost function Storing(r: Ring, src: seq<Byte>, i: nat): System
    requires i <= |src|
  {
    Two(r, Asleep(Read(1)), Test(Write(src, i), 0 < i), By(1), Free, src[..i], false, false)
  }

  lemma StoreOne(r: Ring, src: seq<Byte>, i: nat)
    requires i < PIPESIZE && i < |src| && Holds(r, src[..i], 0)
    ensures Holds(Push(r, src[i]), src[..i + 1], 0)
    ensures Follows(Storing(r, src, i), Go(1), Storing(Push(r, src[i]), src, i + 1))
  {
    Tests(r, src[..i], 0);
    PushHolds(r, src[..i], 0, src[i]);
    assert src[..i] + [src[i]] == src[..i + 1];
  }

  /** The writer fills the pipe. */
  lemma {:induction false} FillUp(r: Ring, src: seq<Byte>, i: nat, states: seq<System>, steps: seq<Step>)
    returns (r': Ring, states': seq<System>, steps': seq<Step>)
    requires i <= PIPESIZE <= |src| && Holds(r, src[..i], 0) && ShortRun(states, steps, |src|)
    requires Last(states) == Storing(r, src, i)
    ensures Holds(r', src[..PIPESIZE], 0) && ShortRun(states', steps', |src|)
    ensures Last(states') == Storing(r', src, PIPESIZE)
    decreases PIPESIZE - i
  {
    if i == PIPESIZE {
      r', states', steps' := r, states, steps;
    } else {
      StoreOne(r, src, i);
      hide Follows;
      states', steps' := Next(states, steps, Go(1), Storing(Push(r, src[i]), src, i + 1), |src|);
      r', states', steps' := FillUp(Push(r, src[i]), src, i + 1, states', steps');
    }
  }

  lemma WriterBegins(r: Ring, src: seq<Byte>)
    requires Sized(r)
    ensures var t := Asleep(Read(1));
            && Follows(Two(r, t, Idle, Free, Free, [], false, false), BeginWrite(1, src),
              Two(r, t, Enter(Write(src, 0)), Free, Free, [], false, false))
            && Follows(Two(r, t, Enter(Write(src, 0)), Free, Free, [], false, false), Go(1), Storing(r, src, 0))
  {
    assert src[..0] == [];
  }

  /** Killed at the full pipe, the writer leaves without a wakeup. */
  lemma WriterLeaves(r: Ring, src: seq<Byte>)
    requires |src| > PIPESIZE && Holds(r, src[..PIPESIZE], 0)
    ensures var t, d, w := Asleep(Read(1)), src[..PIPESIZE], Test(Write(src, PIPESIZE), true);
            && Follows(Storing(r, src, PIPESIZE), Kill(1), Two(r, t, w, By(1), Free, d, true, false))
            && Follows(Two(r, t, w, By(1), Free, d, true, false), Go(1),
                       Two(r, t, Leave(true), By(1), Free, d, true, true))
            && Follows(Two(r, t, Leave(true), By(1), Free, d, true, true), Go(1),
                       Two(r, t, Idle, Free, Free, d, true, true))
  {
    var s := Two(r, Asleep(Read(1)), Test(Write(src, PIPESIZE), true), By(1), Free, src[..PIPESIZE], true, false);
    Tests(r, src[..PIPESIZE], 0);
    assert Sleeps(s.th[0], false);
    assert ReaderSleeps(s);
  }

  /**
  From a new pipe, with any 513 bytes to write: a run that ends with the lock free, 512 bytes in the pipe and the
  reader asleep.
  */
  lemma Stranded(r: Ring, src: seq<Byte>) returns (states: seq<System>, steps: seq<Step>)
    requires Sized(r) && r.nread == r.nwrite == 0 && |src| > PIPESIZE
    ensures ShortRun(states, steps, |src|)
    ensures var s := Last(states);
            s.lock == Free && s.stored == src[..PIPESIZE] && s.returned == [] && s.th == [Asleep(Read(1)), Idle]
                && s.lost
  {
    states, steps := ReaderSleepsFirst(r, |src|);
    WriterBegins(r, src);
    assert Holds(r, src[..0], 0);
    hide Follows;
    hide Holds;
    hide ShortRun;
    var t, d := Asleep(Read(1)), src[..PIPESIZE];
    states, steps := Next(states, steps, BeginWrite(1, src),
                          Two(r, t, Enter(Write(src, 0)), Free, Free, [], false, false), |src|);
    states, steps := Next(states, steps, Go(1), Storing(r, src, 0), |src|);
    var r';
    r', states, steps := FillUp(r, src, 0, states, steps);
    WriterLeaves(r', src);
    states, steps := Next(states, steps, Kill(1),
                          Two(r', t, Test(Write(src, PIPESIZE), true), By(1), Free, d, true, false), |src|);
    states, steps := Next(states, steps, Go(1), Two(r', t, Leave(true), By(1), Free, d, true, true), |src|);
    states, steps := Next(states, steps, Go(1), Two(r', t, Idle, Free, Free, d, true, true), |src|);
  }

  // ---- How long a write must be ----

  /** Every write in progress has at most n bytes. */
  ghost predicate Short(s: System, n: nat)
  {
    forall k {:trigger s.th[k]} :: 0 <= k < |s.th| && HasTask(s.th[k]) && s.th[k].task.Write? ==>
        |s.th[k].task.src| <= n
  }

  /** No reader is stranded, and a writer at its loop test beside a sleeping reader has stored every byte in the pipe
      itself. */
  ghost predicate Spotless(s: System)
  {
    && !s.lost
    && forall k {:trigger s.th[k]} :: 0 <= k < |s.th| && s.th[k].Test? && s.th[k].task.Write? && ReaderSleeps(s) ==>
         |s.stored| - |s.returned| <= s.th[k].task.i
  }

  /** From th to th', process j stays where it is or is woken. */
  ghost predicate Stays(th: seq<Pc>, th': seq<Pc>, j: nat)
    requires j < |th|
  {
    |th'| == |th| && (th'[j] == th[j] || (th[j].Asleep? && th'[j] == Woken(th[j].task)))
  }

  /** From pc to pc', a process goes on with the write it has begun. */
  ghost predicate GoesOn(pc: Pc, pc': Pc)
  {
    HasTask(pc') && pc'.task.Write? ==> HasTask(pc) && pc.task.Write? && pc'.task.src == pc.task.src
  }

  /** A step of process k, as it shows at process j. */
  ghost predicate Moves(th: seq<Pc>, th': seq<Pc>, k: nat, j: nat)
    requires k < |th| && j < |th|
  {
    |th'| == |th| && (if j == k then GoesOn(th[k], th'[k]) else Stays(th, th', j))
  }

  /** A step of process k that strands nobody and brings it to its loop test only by taking the lock. */
  ghost predicate Quietly(s: System, s': System, k: nat)
    requires k < |s.th|
  {
    s'.lost == s.lost && |s'.th| == |s.th| && (s'.th[k].Test? ==> s.th[k].Enter? || s.th[k].Woken?)
  }

  lemma TakeMoves(s: System, k: nat, j: nat)
    requires k < |s.th| && j < |s.th| && var pc := s.th[k]; pc.Enter? || pc.Woken?
    ensures Moves(s.th, Shift(s, k).th, k, j)
    ensures Quietly(s, Shift(s, k), k)
  {
  }

  lemma SleepMoves(s: System, k: nat, j: nat)
    requires k < |s.th| && j < |s.th| && var pc := s.th[k]; pc.Sleep1? || pc.Sleep2? || pc.Sleep3?
    ensures Moves(s.th, Shift(s, k).th, k, j)
    ensures Quietly(s, Shift(s, k), k)
  {
  }

  lemma LeaveMoves(s: System, k: nat, j: nat)
    requires k < |s.th| && j < |s.th| && var pc := s.th[k]; pc.Leave? || pc.CloseEnter? || pc.CloseCheck?
    ensures Moves(s.th, Shift(s, k).th, k, j)
    ensures Quietly(s, Shift(s, k), k)
  {
  }

  lemma WakeMoves(s: System, k: nat, j: nat)
    requires k < |s.th| && j < |s.th| && var pc := s.th[k]; pc.Alert? || pc.Finish? || pc.CloseWake?
    ensures Moves(s.th, Shift(s, k).th, k, j)
    ensures Quietly(s, Shift(s, k), k)
  {
  }

  lemma RestMoves(s: System, k: nat, j: nat)
    requires k < |s.th| && j < |s.th| && var pc := s.th[k]; pc.Idle? || pc.Asleep?
    ensures Moves(s.th, Shift(s, k).th, k, j)
    ensures Quietly(s, Shift(s, k), k)
  {
  }

  lemma WriterMoves(s: System, k: nat, j: nat)
    requires Shaped(s) && k < |s.th| && j < |s.th| && s.th[k].Test? && s.th[k].task.Write?
    ensures Moves(s.th, WriterTest(s, k).th, k, j)
  {
    hide Push;
    hide Full;
    hide ReaderSleeps;
    var t := s.th[k].task;
    if t.i >= |t.src| {
    } else if !Full(s.ring) {
    } else {
    }
  }

  lemma ReaderMovesOn(s: System, k: nat, j: nat)
    requires Shaped(s) && k < |s.th| && j < |s.th| && s.th[k].Test? && s.th[k].task.Read?
    ensures Moves(s.th, ReaderTest(s, k).th, k, j)
    ensures Quietly(s, ReaderTest(s, k), k)
  {
    hide Empty;
  }

  lemma CopyMoves(s: System, k: nat, j: nat)
    requires Shaped(s) && k < |s.th| && j < |s.th| && s.th[k].Copy?
    ensures Moves(s.th, CopyOne(s, k).th, k, j)
    ensures Quietly(s, CopyOne(s, k), k)
  {
    hide Empty;
    hide Pop;
    hide Front;
  }

  lemma ProceedMoves(s: System, k: nat, j: nat)
    requires Shaped(s) && k < |s.th| && j < |s.th|
    ensures Moves(s.th, Proceed(s, k).th, k, j)
    ensures !(s.th[k].Test? && s.th[k].task.Write?) ==> Quietly(s, Proceed(s, k), k)
  {
    hide Shift;
    hide WriterTest;
    hide ReaderTest;
    hide CopyOne;
    hide Moves;
    hide Quietly;
    var pc := s.th[k];
    if pc.Test? && pc.task.Write? {
      WriterMoves(s, k, j);
    } else if pc.Test? {
      ReaderMovesOn(s, k, j);
    } else if pc.Copy? {
      CopyMoves(s, k, j);
    } else if pc.Enter? || pc.Woken? {
      TakeMoves(s, k, j);
    } else if pc.Sleep1? || pc.Sleep2? || pc.Sleep3? {
      SleepMoves(s, k, j);
    } else if pc.Leave? || pc.CloseEnter? || pc.CloseCheck? {
      LeaveMoves(s, k, j);
    } else if pc.Idle? || pc.Asleep? {
      RestMoves(s, k, j);
    } else {
      WakeMoves(s, k, j);
    }
  }

  /** Every step but the beginning of a write. */
  lemma StepMoves(s: System, step: Step, j: nat)
    requires Shaped(s) && Enabled(s, step) && j < |s.th|
    ensures |Apply(s, step).th| == |s.th|
    ensures step.BeginWrite? && j == step.k ==> Apply(s, step).th[j] == Enter(Write(step.src, 0))
    ensures !(step.BeginWrite? && j == step.k) ==> Moves(s.th, Apply(s, step).th, step.k, j)
  {
    hide Proceed;
    if step.Go? {
      ProceedMoves(s, step.k, j);
    }
  }

  lemma ShortKept(s: System, step: Step, n: nat)
    requires Shaped(s) && Enabled(s, step) && Short(s, n) && ShortStep(step, n)
    ensures Short(Apply(s, step), n)
  {
    var s' := Apply(s, step);
    hide Apply;
    forall j {:trigger s'.th[j]} | 0 <= j < |s'.th| && HasTask(s'.th[j]) && s'.th[j].task.Write?
      ensures |s'.th[j].task.src| <= n
    {
      StepMoves(s, step, if j < |s.th| then j else step.k);
    }
  }

  /** Nobody falls asleep, stores or takes a byte while another process holds the lock. */
  lemma HeldByOther(s: System, step: Step, k: nat)
    requires Invariant(s) && Enabled(s, step) && s.lock == By(k) && step.k != k
    ensures var s' := Apply(s, step);
            && |s'.stored| == |s.stored| && |s'.returned| == |s.returned| && s'.lost == s.lost
            && (ReaderSleeps(s') ==> ReaderSleeps(s))
  {
    var s' := Apply(s, step);
    assert Fine(s, step.k);
    if ReaderSleeps(s') {
      var j :| 0 <= j < |s'.th| && Sleeps(s'.th[j], false);
      if j != step.k {
        StepMoves(s, step, j);
      }
      assert Sleeps(s.th[j], false);
    }
  }

  /** Whoever has just taken the lock finds no reader asleep beside a byte. */
  lemma EmptyAtFirst(s: System)
    requires Invariant(s) && !s.lost && s.lock == Free && ReaderSleeps(s)
    ensures |s.stored| == |s.returned|
  {
    var j :| 0 <= j < |s.th| && Sleeps(s.th[j], false);
    assert Fine(s, j);
  }

  lemma ReaderSlept(s: System, k: nat)
    requires Shaped(s) && k < |s.th| && |Proceed(s, k).th| == |s.th| && Proceed(s, k).th[k].Test?
    requires ReaderSleeps(Proceed(s, k))
    ensures ReaderSleeps(s)
  {
    var s' := Proceed(s, k);
    hide Proceed;
    var j :| 0 <= j < |s'.th| && Sleeps(s'.th[j], false);
    ProceedMoves(s, k, j);
    assert Sleeps(s.th[j], false);
  }

  /** The writer's own step: taking the lock, */
  lemma AcquireSpotless(s: System, k: nat)
    requires Invariant(s) && Enabled(s, Go(k)) && Spotless(s) && (s.th[k].Enter? || s.th[k].Woken?)
    ensures var s' := Proceed(s, k); !s'.lost && |s'.stored| == |s.stored| && |s'.returned| == |s.returned|
    ensures ReaderSleeps(s) ==> |s.stored| == |s.returned|
  {
    if ReaderSleeps(s) {
      EmptyAtFirst(s);
    }
  }

  /** or a turn of its loop. */
  lemma TurnSpotless(s: System, k: nat)
    requires Invariant(s) && Enabled(s, Go(k)) && Spotless(s) && Short(s, PIPESIZE) && s.th[k].Test?
    requires s.th[k].task.Write?
    ensures var s' := Proceed(s, k);
            && !s'.lost && |s'.th| == |s.th|
            && (s'.th[k].Test? ==>
                  |s'.stored| == |s.stored| + 1 && |s'.returned| == |s.returned|
                      && s'.th[k].task == s.th[k].task.(i := s.th[k].task.i + 1))
  {
    Tests(s.ring, s.stored, |s.returned|);
  }

  lemma ComesToTest(s: System, k: nat)
    requires Invariant(s) && Enabled(s, Go(k)) && Spotless(s) && Short(s, PIPESIZE)
    ensures var s' := Proceed(s, k);
            && !s'.lost && |s'.th| == |s.th|
            && (s'.th[k].Test? && s'.th[k].task.Write? && ReaderSleeps(s') ==>
                |s'.stored| - |s'.returned| <= s'.th[k].task.i)
  {
    var s' := Proceed(s, k);
    var pc := s.th[k];
    ProceedMoves(s, k, k);
    hide Proceed;
    if pc.Enter? || pc.Woken? {
      AcquireSpotless(s, k);
    } else if pc.Test? && pc.task.Write? {
      TurnSpotless(s, k);
    }
    if s'.th[k].Test? && ReaderSleeps(s') {
      ReaderSlept(s, k);
    }
  }

  lemma SpotlessKept(s: System, step: Step)
    requires Invariant(s) && Enabled(s, step) && Spotless(s) && Short(s, PIPESIZE)
    ensures Spotless(Apply(s, step))
  {
    var s' := Apply(s, step);
    StepKeeps(s, step);
    if step.Go? {
      ComesToTest(s, step.k);
    }
    forall k {:trigger s'.th[k]} | 0 <= k < |s'.th| && s'.th[k].Test? && s'.th[k].task.Write? && ReaderSleeps(s')
      ensures |s'.stored| - |s'.returned| <= s'.th[k].task.i
    {
      if k != step.k {
        StepMoves(s, step, k);
        assert Fine(s, k);
        HeldByOther(s, step, k);
      }
    }
  }

  /** Writes that fit the pipe strand nobody, whoever is killed. */
  lemma {:induction false} ShortWrites(states: seq<System>, steps: seq<Step>, m: nat)
    requires ShortRun(states, steps, PIPESIZE) && m < |states|
    ensures Spotless(states[m]) && Short(states[m], PIPESIZE)
  {
    RunKeeps(states, steps, m);
    if m > 0 {
      ShortWrites(states, steps, m - 1);
      RunKeeps(states, steps, m - 1);
      assert Follows(states[m - 1], steps[m - 1], states[m]);
      assert ShortStep(steps[m - 1], PIPESIZE);
      hide Invariant;
      ShortKept(states[m - 1], steps[m - 1], PIPESIZE);
      SpotlessKept(states[m - 1], steps[m - 1]);
    }
  }

  /** Some run with writes of at most n bytes strands a reader. */
  ghost predicate CanStrand(n: nat)
  {
    exists states: seq<System>, steps: seq<Step>, m: nat {:trigger ShortRun(states, steps, n), states[m]} ::
      ShortRun(states, steps, n) && m < |states| && states[m].lost
  }

  /** A killed writer can strand readers if and only if writes may be longer than the pipe. */
  lemma StrandingLength(n: nat)
    ensures CanStrand(n) <==> n > PIPESIZE
  {
    if n > PIPESIZE {
      var r, src := Ring(seq(PIPESIZE, _ => 0), 0, 0), seq(n, _ => 0);
      var states, steps := Stranded(r, src);
      assert ShortRun(states, steps, n);
      assert states[|states| - 1].lost;
    } else if CanStrand(n) {
      var states: seq<System>, steps: seq<Step>, m: nat :| ShortRun(states, steps, n) && m < |states| && states[m].lost;
      assert ShortRun(states, steps, PIPESIZE);
      ShortWrites(states, steps, m);
      assert false;
    }
  }
}
