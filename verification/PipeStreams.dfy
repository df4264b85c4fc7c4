/**
Whose bytes go through the pipe: in every run the bytes stored are the sources of the pipewrite calls, interleaved;
and what a call of piperead or pipewrite that ends has done.
*/
module PipeStreams {
  import opened Basics
  import opened PipeRing
  import opened PipeRuns
  import opened PipeStranding

  /** The last of the first n steps that began a call of process k. */
  function Call(steps: seq<Step>, n: nat, k: nat): nat
    requires n <= |steps|
  {
    if n == 0 then 0 else if steps[n - 1].BeginWrite? && steps[n - 1].k == k then n - 1 else Call(steps, n - 1, k)
  }

  predicate Writing(pc: Pc)
  {
    HasTask(pc) && pc.task.Write?
  }

  /** The call whose byte step n stores, if it stores one: the pipewrite that the process making the step is in. */
  ghost function Stores(states: seq<System>, steps: seq<Step>, n: nat): seq<nat>
    requires |states| == |steps| + 1 && n < |steps|
  {
    if |states[n + 1].stored| > |states[n].stored| then [Call(steps, n, steps[n].k)] else []
  }

  /** The calls, each named by the step that began it, whose bytes the first n steps stored, byte by byte. */
  ghost function Owners(states: seq<System>, steps: seq<Step>, n: nat): seq<nat>
    requires |states| == |steps| + 1 && n <= |steps|
  {
    if n == 0 then [] else Owners(states, steps, n - 1) + Stores(states, steps, n - 1)
  }

  /** The bytes of one call, in the order they were stored. */
  ghost function Share(stored: seq<Byte>, owners: seq<nat>, c: nat): seq<Byte>
    requires |owners| == |stored|
  {
    if owners == [] then [] else
    var last := |owners| - 1;
    Share(stored[..last], owners[..last], c) + (if owners[last] == c then [stored[last]] else [])
  }

  lemma ShareMore(stored: seq<Byte>, owners: seq<nat>, b: Byte, o: nat, c: nat)
    requires |owners| == |stored|
    ensures Share(stored + [b], owners + [o], c) == Share(stored, owners, c) + (if o == c then [b] else [])
  {
    assert (stored + [b])[..|owners|] == stored && (owners + [o])[..|owners|] == owners;
  }

  // ---- What a step does to the writers and to the bytes ----

  /** Still in the same pipewrite, if in one, and n bytes further. */
  predicate Advanced(pc: Pc, pc': Pc, n: int)
  {
    Writing(pc') ==> Writing(pc) && pc'.task.src == pc.task.src && pc'.task.i == pc.task.i + n
  }

  lemma ToMoves(s: System, k: nat, pc: Pc)
    requires k < |s.th|
    ensures var s' := To(s, k, pc); s'.th == s.th[k := pc] && s'.stored == s.stored && s'.killed == s.killed
  {
  }

  /** Between its last look at its mark and its sleep, or asleep. */
  predicate Committed(pc: Pc)
  {
    pc.Alert? || pc.Sleep1? || pc.Sleep2? || pc.Sleep3? || pc.Asleep?
  }

  /** A step of k that leaves the bytes alone, and brings k neither to copying nor to its end, nor off to sleep. */
  ghost predicate Shifted(s: System, s': System, k: nat)
  {
    && k < |s.th| == |s'.th| && s'.stored == s.stored && s'.killed == s.killed && Advanced(s.th[k], s'.th[k], 0)
    && !s'.th[k].Copy? && !s'.th[k].Finish? && (Committed(s'.th[k]) ==> Committed(s.th[k]))
  }

  lemma WakingMoves(s: System, k: nat)
    requires k < |s.th| && (s.th[k].Alert? || s.th[k].Finish? || s.th[k].CloseWake?)
    ensures Shifted(s, Shift(s, k), k)
  {
    hide Wake;
    hide To;
    ToMoves(s.(th := Wake(s.th, false)), k, if s.th[k].Alert? then Sleep1(s.th[k].task) else Idle);
    if s.th[k].Finish? {
      ToMoves(s.(th := Wake(s.th, s.th[k].task.Read?)), k, Leave(s.th[k].task.Write?));
    } else if s.th[k].CloseWake? {
      ToMoves(s.(th := Wake(s.th, !s.th[k].writable)), k, CloseCheck(s.th[k].writable));
    }
  }

  lemma ShiftMoves(s: System, k: nat)
    requires k < |s.th| && !s.th[k].Test? && !s.th[k].Copy?
    ensures Shifted(s, Shift(s, k), k)
  {
    hide Wake;
    hide To;
    match s.th[k]
    case Enter(t) => ToMoves(s, k, Test(t, false));
    case Woken(t) => ToMoves(s, k, Test(t, false));
    case Sleep1(t) => ToMoves(s, k, Sleep2(t));
    case Sleep2(t) => ToMoves(s, k, Sleep3(t));
    case Sleep3(t) => ToMoves(s, k, Asleep(t));
    case Leave(_) => ToMoves(s, k, Idle);
    case CloseEnter(w) => ToMoves(s, k, CloseWake(w));
    case CloseCheck(_) => ToMoves(s, k, Idle);
    case Idle =>
    case Asleep(_) =>
    case _ => WakingMoves(s, k);
  }

  lemma WriterAdvances(s: System, k: nat)
    requires Shaped(s) && k < |s.th| && s.th[k].Test? && s.th[k].task.Write?
    ensures var s' := WriterTest(s, k);
            && |s'.th| == |s.th| && s'.killed == s.killed
            && Advanced(s.th[k], s'.th[k], |s'.stored| - |s.stored|)
  {
    hide Push;
    hide Full;
    hide ReaderSleeps;
    hide To;
    var t := s.th[k].task;
    ToMoves(s, k, Finish(t, []));
    ToMoves(s, k, Test(t.(i := t.i + 1), true));
    ToMoves(s, k, Leave(true));
    ToMoves(s, k, Alert(t));
  }

  lemma ReaderAdvances(s: System, k: nat)
    requires Shaped(s) && k < |s.th| && (s.th[k].Copy? || (s.th[k].Test? && s.th[k].task.Read?))
    ensures var s' := Proceed(s, k);
            && |s'.th| == |s.th| && s'.killed == s.killed && s'.stored == s.stored
            && Advanced(s.th[k], s'.th[k], 0) && (s.th[k].Copy? ==> !Committed(s'.th[k]))
  {
    hide Shift;
    hide Pop;
    hide Front;
    hide Empty;
    hide To;
    var pc := s.th[k];
    if pc.Copy? {
      ToMoves(s, k, Finish(Read(pc.n), pc.got));
      ToMoves(s, k, Copy(pc.n, pc.got + [Front(s.ring)]));
    } else {
      ToMoves(s, k, Copy(pc.task.n, []));
      ToMoves(s, k, Leave(false));
      ToMoves(s, k, Sleep1(pc.task));
    }
  }

  /** A process in pipewrite has just begun, or is where it was, one byte further if it has just stored one. */
  lemma TaskMoves(s: System, step: Step, j: nat)
    requires Shaped(s) && Enabled(s, step) && j < |s.th|
    ensures var s' := Apply(s, step);
            && |s'.th| == |s.th|
            && if step.BeginWrite? && step.k == j then s'.th[j] == Enter(Write(step.src, 0))
               else Advanced(s.th[j], s'.th[j], if step == Go(j) then |s'.stored| - |s.stored| else 0)
  {
    hide Proceed;
    if step.k != j {
      StepMoves(s, step, j);
      hide Apply;
    } else if step.Go? {
      GoMoves(s, j);
    }
  }

  lemma GoMoves(s: System, k: nat)
    requires Shaped(s) && k < |s.th|
    ensures var s' := Proceed(s, k);
            && |s'.th| == |s.th| && s'.killed == s.killed
            && Advanced(s.th[k], s'.th[k], |s'.stored| - |s.stored|)
  {
    if s.th[k].Test? && s.th[k].task.Write? {
      WriterAdvances(s, k);
    } else if s.th[k].Test? || s.th[k].Copy? {
      ReaderAdvances(s, k);
    } else {
      ShiftMoves(s, k);
    }
    hide WriterTest;
    hide ReaderTest;
    hide CopyOne;
    hide Shift;
  }

  lemma WriterStores(s: System, k: nat)
    requires Shaped(s) && k < |s.th| && s.th[k].Test? && s.th[k].task.Write?
    ensures var s', t := WriterTest(s, k), s.th[k].task;
            s'.stored == s.stored || (t.i < |t.src| && s'.stored == s.stored + [t.src[t.i]])
  {
    hide Push;
    hide Full;
    hide ReaderSleeps;
    hide To;
    var t := s.th[k].task;
    ToMoves(s, k, Finish(t, []));
    ToMoves(s, k, Alert(t));
    ToMoves(s, k, Leave(true));
  }

  /** A step stores nothing, or the next byte of the source of the process that makes it. */
  lemma StoreMoves(s: System, step: Step)
    requires Shaped(s) && Enabled(s, step)
    ensures var s' := Apply(s, step);
            || s'.stored == s.stored
            || (step.Go? && Writing(s.th[step.k]) && s.th[step.k].task.i < |s.th[step.k].task.src|
                && s'.stored == s.stored + [s.th[step.k].task.src[s.th[step.k].task.i]])
  {
    if step.Go? {
      var k := step.k;
      if s.th[k].Test? && s.th[k].task.Write? {
        WriterStores(s, k);
      } else if s.th[k].Test? || s.th[k].Copy? {
        ReaderAdvances(s, k);
      } else {
        ShiftMoves(s, k);
      }
      hide WriterTest;
      hide ReaderTest;
      hide CopyOne;
      hide Shift;
    } else {
      hide Proceed;
    }
  }

  // ---- Runs ----

  /** What call c has stored before step n: a prefix of its source, and nothing if it has not begun. */
  ghost predicate Prefixed(share: seq<Byte>, steps: seq<Step>, n: nat, c: nat)
    requires n <= |steps|
  {
    if c < n && steps[c].BeginWrite? then share <= steps[c].src else share == []
  }

  /** Process k, if in pipewrite, is in call c and has stored exactly the first i bytes of the source it began with. */
  ghost predicate Exactly(share: seq<Byte>, pc: Pc, steps: seq<Step>, n: nat, k: nat, c: nat)
    requires n <= |steps|
  {
    Writing(pc) ==> c < n && steps[c] == BeginWrite(k, pc.task.src) && pc.task.i <= |pc.task.src|
                    && share == pc.task.src[..pc.task.i]
  }

  /** The bytes of call c among those stored by the first n steps. */
  ghost function Piece(states: seq<System>, steps: seq<Step>, n: nat, c: nat): seq<Byte>
    requires |states| == |steps| + 1 && n <= |steps| && |Owners(states, steps, n)| == |states[n].stored|
  {
    Share(states[n].stored, Owners(states, steps, n), c)
  }

  /** One step stores the next byte of one call, or nothing. */
  lemma OwnersGrow(states: seq<System>, steps: seq<Step>, n: nat)
    requires IsRun(states, steps) && n < |steps|
    ensures var s, s', k := states[n], states[n + 1], steps[n].k;
            || (s'.stored == s.stored && Owners(states, steps, n + 1) == Owners(states, steps, n))
            || (steps[n].Go? && k < |s.th| && Writing(s.th[k]) && s.th[k].task.i < |s.th[k].task.src|
                && s'.stored == s.stored + [s.th[k].task.src[s.th[k].task.i]]
                && Owners(states, steps, n + 1) == Owners(states, steps, n) + [Call(steps, n, k)])
  {
    assert Follows(states[n], steps[n], states[n + 1]);
    hide Apply;
    hide Enabled;
    StoreMoves(states[n], steps[n]);
  }

  /** A step may add the next byte of the pipewrite its process is in. */
  ghost predicate Grows(was: seq<Byte>, share: seq<Byte>, s: System, s': System, step: Step, at: nat, c: nat)
  {
    if |s'.stored| == |s.stored| then share == was
    else
      && step.Go? && step.k < |s.th| && Writing(s.th[step.k]) && |s'.stored| == |s.stored| + 1
      && var t := s.th[step.k].task; t.i < |t.src| && share == was + if at == c then [t.src[t.i]] else []
  }

  lemma PieceGrows(states: seq<System>, steps: seq<Step>, n: nat, c: nat)
    requires IsRun(states, steps) && n < |steps| && |Owners(states, steps, n)| == |states[n].stored|
    ensures |Owners(states, steps, n + 1)| == |states[n + 1].stored|
    ensures Grows(Piece(states, steps, n, c), Piece(states, steps, n + 1, c), states[n], states[n + 1], steps[n],
                  Call(steps, n, steps[n].k), c)
  {
    OwnersGrow(states, steps, n);
    var s, k, owners := states[n], steps[n].k, Owners(states, steps, n);
    hide IsRun;
    if states[n + 1].stored != s.stored {
      ShareMore(s.stored, owners, s.th[k].task.src[s.th[k].task.i], Call(steps, n, k), c);
    }
  }

  lemma PrefixGrows(was: seq<Byte>, share: seq<Byte>, mover: seq<Byte>, s: System, s': System, steps: seq<Step>,
                    n: nat, at: nat, c: nat)
    requires n < |steps| && Grows(was, share, s, s', steps[n], at, c) && Prefixed(was, steps, n, c)
    requires steps[n].k < |s.th| && Exactly(mover, s.th[steps[n].k], steps, n, steps[n].k, at)
    requires at == c ==> mover == was
    ensures Prefixed(share, steps, n + 1, c)
  {
  }

  lemma ExactGrows(was: seq<Byte>, share: seq<Byte>, s: System, s': System, steps: seq<Step>,
                   n: nat, at: nat, k: nat, c: nat)
    requires n < |steps| && Shaped(s) && Enabled(s, steps[n]) && s' == Apply(s, steps[n]) && k < |s.th|
    requires steps[n].k < |s.th| && Writing(s.th[steps[n].k]) ==> at < n && steps[at].k == steps[n].k
    requires steps[n].k == k ==> at == c
    requires Exactly(was, s.th[k], steps, n, k, c)
    requires !(steps[n].BeginWrite? && steps[n].k == k) && Grows(was, share, s, s', steps[n], at, c)
    ensures |s'.th| == |s.th| && Exactly(share, s'.th[k], steps, n + 1, k, c)
  {
    TaskMoves(s, steps[n], k);
    hide Apply;
    hide Enabled;
  }

  /** The bytes stored before step n have owners; each call has stored a prefix, each writer what its place says. */
  ghost predicate Split(states: seq<System>, steps: seq<Step>, n: nat)
    requires |states| == |steps| + 1 && n <= |steps|
  {
    && |Owners(states, steps, n)| == |states[n].stored|
    && (forall c: nat {:trigger Piece(states, steps, n, c)} :: Prefixed(Piece(states, steps, n, c), steps, n, c))
    && forall k: nat {:trigger states[n].th[k]} :: k < |states[n].th| ==>
         Exactly(Piece(states, steps, n, Call(steps, n, k)), states[n].th[k], steps, n, k, Call(steps, n, k))
  }

  lemma SplitAt(states: seq<System>, steps: seq<Step>, n: nat, c: nat, k: nat)
    requires |states| == |steps| + 1 && n <= |steps| && Split(states, steps, n) && k < |states[n].th|
    ensures |Owners(states, steps, n)| == |states[n].stored| && Prefixed(Piece(states, steps, n, c), steps, n, c)
    ensures Exactly(Piece(states, steps, n, Call(steps, n, k)), states[n].th[k], steps, n, k, Call(steps, n, k))
  {
  }

  lemma Moving(states: seq<System>, steps: seq<Step>, n: nat)
    requires IsRun(states, steps) && n < |steps|
    ensures steps[n].k < |states[n].th|
  {
    assert Follows(states[n], steps[n], states[n + 1]);
  }

  lemma NextPrefix(states: seq<System>, steps: seq<Step>, n: nat, n': nat, c: nat)
    requires IsRun(states, steps) && n' == n + 1 <= |steps| && Split(states, steps, n)
    ensures |Owners(states, steps, n')| == |states[n'].stored|
    ensures Prefixed(Piece(states, steps, n', c), steps, n', c)
  {
    Moving(states, steps, n);
    hide *;
    var s, s', k := states[n], states[n'], steps[n].k;
    var at := Call(steps, n, k);
    SplitAt(states, steps, n, c, k);
    PieceGrows(states, steps, n, c);
    var was, share, mover := Piece(states, steps, n, c), Piece(states, steps, n', c), Piece(states, steps, n, at);
    PrefixGrows(was, share, mover, s, s', steps, n, at, c);
  }

  lemma Began(states: seq<System>, steps: seq<Step>, n: nat, n': nat, k: nat)
    requires IsRun(states, steps) && n' == n + 1 <= |steps| && Split(states, steps, n)
    requires k < |states[n].th| && steps[n].BeginWrite? && steps[n].k == k
    ensures |Owners(states, steps, n')| == |states[n'].stored|
    ensures k < |states[n'].th| && Exactly(Piece(states, steps, n', n), states[n'].th[k], steps, n', k, n)
  {
    assert Follows(states[n], steps[n], states[n']);
    hide IsRun;
    hide Apply;
    hide Owners;
    hide Piece;
    TaskMoves(states[n], steps[n], k);
    hide Enabled;
    SplitAt(states, steps, n, n, k);
    PieceGrows(states, steps, n, n);
  }

  lemma NextExact(states: seq<System>, steps: seq<Step>, n: nat, n': nat, k: nat)
    requires IsRun(states, steps) && n' == n + 1 <= |steps| && Split(states, steps, n) && k < |states[n'].th|
    ensures |Owners(states, steps, n')| == |states[n'].stored|
    ensures var c := Call(steps, n', k);
            Exactly(Piece(states, steps, n', c), states[n'].th[k], steps, n', k, c)
  {
    var j, c := steps[n].k, Call(steps, n', k);
    var at := Call(steps, n, j);
    assert Follows(states[n], steps[n], states[n']);
    assert c == if steps[n].BeginWrite? && j == k then n else Call(steps, n, k);
    hide IsRun;
    hide Apply;
    hide Owners;
    hide Piece;
    hide Call;
    TaskMoves(states[n], steps[n], j);
    if steps[n].BeginWrite? && j == k {
      Began(states, steps, n, n', k);
    } else {
      SplitAt(states, steps, n, c, k);
      SplitAt(states, steps, n, c, j);
      PieceGrows(states, steps, n, c);
      hide Split;
      ExactGrows(Piece(states, steps, n, c), Piece(states, steps, n', c), states[n], states[n'], steps, n, at, k, c);
    }
  }

  lemma RunLength(states: seq<System>, steps: seq<Step>)
    requires IsRun(states, steps)
    ensures |states| == |steps| + 1
  {
  }

  lemma SplitFirst(states: seq<System>, steps: seq<Step>)
    requires IsRun(states, steps)
    ensures Split(states, steps, 0)
  {
    assert forall k: nat :: k < |states[0].th| ==> states[0].th[k] == Idle;
  }

  lemma SplitNext(states: seq<System>, steps: seq<Step>, n: nat, n': nat)
    requires IsRun(states, steps) && n' == n + 1 <= |steps| && Split(states, steps, n)
    ensures Split(states, steps, n')
  {
    NextPrefix(states, steps, n, n', 0);
    hide IsRun;
    hide Owners;
    hide Piece;
    hide Call;
    hide Prefixed;
    hide Exactly;
    forall c: nat ensures Prefixed(Piece(states, steps, n', c), steps, n', c) {
      NextPrefix(states, steps, n, n', c);
    }
    forall k: nat | k < |states[n'].th|
      ensures Exactly(Piece(states, steps, n', Call(steps, n', k)), states[n'].th[k], steps, n', k, Call(steps, n', k))
    {
      NextExact(states, steps, n, n', k);
    }
  }

  /**
  In every run the bytes stored are the sources of the calls of pipewrite, interleaved: picking out the bytes of a
  call gives a prefix of its source, and, while its process is in it, the part before its place in the source.
  */
  lemma {:induction false} Interleaved(states: seq<System>, steps: seq<Step>, n: nat)
    requires IsRun(states, steps) && n <= |steps|
    ensures Split(states, steps, n)
  {
    hide *;
    RunLength(states, steps);
    if n == 0 {
      SplitFirst(states, steps);
    } else {
      Interleaved(states, steps, n - 1);
      SplitNext(states, steps, n - 1, n);
    }
  }

  // ---- How calls end ----

  /** Of a call about to wake the other side and return, or copying: what it has done. */
  ghost predicate Done(s: System, pc: Pc)
  {
    match pc
    case Copy(n, got) => |got| <= n && (got == [] ==> !IsEmpty(s) || !s.writeopen)
    case Finish(Write(src, i), _) => i == |src|
    case Finish(Read(n), got) => |got| <= n && (|got| < n ==> IsEmpty(s)) && (got == [] && n > 0 ==> !s.writeopen)
    case _ => true
  }

  /** Whoever holds the pipe's lock is not disturbed. */
  lemma Undisturbed(s: System, step: Step, j: nat)
    requires Invariant(s) && Enabled(s, step) && j < |s.th| && HoldsLock(s.th[j]) && step != Go(j)
    ensures var s' := Apply(s, step);
            && SameBytes(s, s') && s'.writeopen == s.writeopen && s'.readopen == s.readopen && s'.freed == s.freed
            && s'.lock == s.lock && |s'.th| == |s.th| && s'.th[j] == s.th[j]
  {
    assert Fine(s, j);
    assert step.k < |s.th| ==> Fine(s, step.k);
    hide WriterTest;
    hide ReaderTest;
    hide CopyOne;
    hide Wake;
  }

  /** Only its own steps take a process to where it copies or finishes. */
  lemma Elsewhere(s: System, step: Step, j: nat)
    requires Shaped(s) && Enabled(s, step) && j < |s.th| && !s.th[j].Copy? && !s.th[j].Finish? && step != Go(j)
    ensures var s' := Apply(s, step); |s'.th| == |s.th| && !s'.th[j].Copy? && !s'.th[j].Finish?
  {
    hide Proceed;
    StepMoves(s, step, j);
    if step.k != j {
      hide Apply;
    }
  }

  lemma WriterDone(s: System, k: nat)
    requires Shaped(s) && k < |s.th| && s.th[k].Test? && s.th[k].task.Write? && s.th[k].task.i <= |s.th[k].task.src|
    ensures var s' := WriterTest(s, k); |s'.th| == |s.th| && Done(s', s'.th[k])
  {
    hide Push;
    hide Full;
    hide ReaderSleeps;
    hide To;
    var t := s.th[k].task;
    ToMoves(s, k, Finish(t, []));
    ToMoves(s, k, Test(t.(i := t.i + 1), true));
    ToMoves(s, k, Leave(true));
    ToMoves(s, k, Alert(t));
  }

  lemma ReaderDone(s: System, k: nat)
    requires Invariant(s) && k < |s.th| && s.th[k].Test? && s.th[k].task.Read?
    ensures var s' := ReaderTest(s, k); |s'.th| == |s.th| && Done(s', s'.th[k])
  {
    Tests(s.ring, s.stored, |s.returned|);
  }

  lemma CopyDone(s: System, k: nat)
    requires Invariant(s) && k < |s.th| && s.th[k].Copy? && Done(s, s.th[k])
    ensures var s' := CopyOne(s, k); |s'.th| == |s.th| && Done(s', s'.th[k])
  {
    Tests(s.ring, s.stored, |s.returned|);
  }

  /** What a call has done when it ends, or so far, stays so until it lets go of the lock. */
  lemma DoneKeeps(s: System, step: Step, j: nat)
    requires Invariant(s) && Enabled(s, step) && j < |s.th| && Done(s, s.th[j])
    requires Writing(s.th[j]) ==> s.th[j].task.i <= |s.th[j].task.src|
    ensures var s' := Apply(s, step); |s'.th| == |s.th| && Done(s', s'.th[j])
  {
    if step == Go(j) {
      if s.th[j].Test? && s.th[j].task.Write? {
        WriterDone(s, j);
      } else if s.th[j].Test? {
        ReaderDone(s, j);
      } else if s.th[j].Copy? {
        CopyDone(s, j);
      } else {
        ShiftMoves(s, j);
      }
      hide WriterTest;
      hide ReaderTest;
      hide CopyOne;
      hide Shift;
      hide Invariant;
    } else if HoldsLock(s.th[j]) {
      Undisturbed(s, step, j);
      hide Apply;
      hide Invariant;
    } else {
      Elsewhere(s, step, j);
      hide Apply;
      hide Invariant;
    }
  }

  lemma {:induction false} DoneAlways(states: seq<System>, steps: seq<Step>, n: nat, k: nat)
    requires IsRun(states, steps) && n <= |steps| && k < |states[n].th|
    ensures Done(states[n], states[n].th[k])
  {
    if n == 0 {
      assert states[0].th[k] == Idle;
    } else {
      var m := n - 1;
      assert Follows(states[m], steps[m], states[n]);
      TaskMoves(states[m], steps[m], steps[m].k);
      DoneAlways(states, steps, m, k);
      RunKeeps(states, steps, m);
      Interleaved(states, steps, m);
      SplitAt(states, steps, m, 0, k);
      hide IsRun;
      hide Apply;
      hide Invariant;
      DoneKeeps(states[m], steps[m], k);
    }
  }

  /** A pipewrite about to return n has put its whole source into the stream. */
  lemma WritesAll(states: seq<System>, steps: seq<Step>, n: nat, k: nat)
    requires IsRun(states, steps) && n <= |steps| && k < |states[n].th| && states[n].th[k].Finish?
    requires states[n].th[k].task.Write?
    ensures |Owners(states, steps, n)| == |states[n].stored|
    ensures var c := Call(steps, n, k);
            && c < n && steps[c] == BeginWrite(k, states[n].th[k].task.src)
            && Piece(states, steps, n, c) == steps[c].src
  {
    DoneAlways(states, steps, n, k);
    Interleaved(states, steps, n);
    SplitAt(states, steps, n, 0, k);
    hide IsRun;
    hide Piece;
    hide Call;
  }

  /** What piperead is about to return: at most n bytes, fewer only if it left the pipe empty, none only at the end. */
  lemma ReadsEnough(states: seq<System>, steps: seq<Step>, n: nat, k: nat)
    requires IsRun(states, steps) && n <= |steps| && k < |states[n].th| && states[n].th[k].Finish?
    requires states[n].th[k].task.Read?
    ensures var s := states[n]; var got, max := s.th[k].got, s.th[k].task.n;
            |got| <= max && (|got| < max ==> |s.stored| == |s.returned|) && (got == [] && max > 0 ==> !s.writeopen)
  {
    DoneAlways(states, steps, n, k);
  }

  /** At its loop test a writer ends, stores, gives up or waits: which, by what has gone through the pipe. */
  lemma WriterChoice(s: System, k: nat)
    requires Invariant(s) && k < |s.th| && s.th[k].Test? && s.th[k].task.Write?
    ensures var s', t := Proceed(s, k), s.th[k].task;
            var full, more := |s.stored| - |s.returned| == PIPESIZE, t.i < |t.src|;
            && |s'.th| == |s.th|
            && (s'.th[k].Finish? <==> !more) && (s'.th[k].Test? <==> more && !full)
            && (s'.th[k].Leave? <==> more && full && (s.killed[k] || !s.readopen))
            && (s'.th[k].Alert? <==> more && full && !s.killed[k] && s.readopen)
  {
    Tests(s.ring, s.stored, |s.returned|);
    assert |s.killed| == |s.th|;
    hide Invariant;
    hide Full;
    hide Push;
    hide ReaderSleeps;
  }

  /** At its loop test a reader starts taking bytes, gives up or waits. */
  lemma ReaderChoice(s: System, k: nat)
    requires Invariant(s) && k < |s.th| && s.th[k].Test? && s.th[k].task.Read?
    ensures var s' := Proceed(s, k); var wait := |s.stored| == |s.returned| && s.writeopen;
            && |s'.th| == |s.th| && (s'.th[k].Copy? <==> !wait)
            && (s'.th[k].Leave? <==> wait && s.killed[k]) && (s'.th[k].Sleep1? <==> wait && !s.killed[k])
  {
    Tests(s.ring, s.stored, |s.returned|);
  }

  // ---- The pipe's page ----

  predicate InClose(pc: Pc)
  {
    pc.CloseWake? || pc.CloseCheck?
  }

  /** If both ends are closed and the page is still there, whoever closed the second is about to free it. */
  ghost predicate FreedSoon(s: System)
  {
    !s.readopen && !s.writeopen && !s.freed ==> s.lock.By? && s.lock.k < |s.th| && InClose(s.th[s.lock.k])
  }

  ghost predicate SameEnds(s: System, s': System)
  {
    s'.readopen == s.readopen && s'.writeopen == s.writeopen && (s.freed ==> s'.freed)
  }

  lemma TestEnds(s: System, k: nat)
    requires Shaped(s) && k < |s.th| && (s.th[k].Test? || s.th[k].Copy?)
    ensures SameEnds(s, Proceed(s, k))
  {
    hide Push;
    hide Full;
    hide Pop;
    hide Front;
    hide Empty;
    hide ReaderSleeps;
  }

  lemma ToEnds(s: System, k: nat, pc: Pc)
    requires k < |s.th|
    ensures SameEnds(s, To(s, k, pc))
  {
  }

  lemma ShiftEnds(s: System, k: nat)
    requires k < |s.th| && !s.th[k].CloseEnter?
    ensures SameEnds(s, Shift(s, k))
  {
    hide Wake;
    hide To;
    match s.th[k]
    case Enter(t) => ToEnds(s, k, Test(t, false));
    case Woken(t) => ToEnds(s, k, Test(t, false));
    case Alert(t) => ToEnds(s.(th := Wake(s.th, false)), k, Sleep1(t));
    case Sleep1(t) => ToEnds(s, k, Sleep2(t));
    case Sleep2(t) => ToEnds(s, k, Sleep3(t));
    case Sleep3(t) => ToEnds(s, k, Asleep(t));
    case Finish(t, _) => ToEnds(s.(th := Wake(s.th, t.Read?)), k, Leave(t.Write?));
    case CloseWake(w) => ToEnds(s.(th := Wake(s.th, !w)), k, CloseCheck(w));
    case _ => ToEnds(s, k, Idle);
  }

  lemma CloseFrees(s: System, k: nat)
    requires k < |s.th| && InClose(s.th[k]) && s.lock == By(k)
    ensures FreedSoon(Shift(s, k))
  {
    hide Wake;
  }

  lemma FreedKept(s: System, step: Step)
    requires Invariant(s) && Enabled(s, step) && FreedSoon(s)
    ensures FreedSoon(Apply(s, step))
  {
    if !s.readopen && !s.writeopen && !s.freed {
      var k := s.lock.k;
      assert Fine(s, k);
      if step == Go(k) {
        CloseFrees(s, k);
      } else {
        Undisturbed(s, step, k);
        hide Apply;
      }
    } else if step.Go? && !s.th[step.k].CloseEnter? {
      var k := step.k;
      if s.th[k].Test? || s.th[k].Copy? {
        TestEnds(s, k);
      } else {
        ShiftEnds(s, k);
      }
      hide WriterTest;
      hide ReaderTest;
      hide CopyOne;
      hide Shift;
    } else {
      hide WriterTest;
      hide ReaderTest;
      hide CopyOne;
    }
  }

  lemma {:induction false} FreedAlways(states: seq<System>, steps: seq<Step>, n: nat)
    requires IsRun(states, steps) && n <= |steps|
    ensures FreedSoon(states[n])
  {
    if n > 0 {
      FreedAlways(states, steps, n - 1);
      RunKeeps(states, steps, n - 1);
      assert Follows(states[n - 1], steps[n - 1], states[n]);
      hide IsRun;
      FreedKept(states[n - 1], steps[n - 1]);
    }
  }

  /** In every run, when nobody holds the pipe's lock, its page has been freed if and only if both ends are closed. */
  lemma FreedIff(states: seq<System>, steps: seq<Step>, n: nat)
    requires IsRun(states, steps) && n <= |steps| && states[n].lock == Free
    ensures states[n].freed <==> !states[n].readopen && !states[n].writeopen
  {
    FreedAlways(states, steps, n);
    RunKeeps(states, steps, n);
  }

  // ---- Killed processes ----

  /** kill marks its target and touches nobody else; a target asleep, or not on its way to sleep, is then awake. */
  lemma KillRouses(s: System, k: nat)
    requires Shaped(s) && Enabled(s, Kill(k))
    ensures var s' := Apply(s, Kill(k));
            && s' == s.(th := s.th[k := s'.th[k]], killed := s.killed[k := true])
            && (Committed(s'.th[k]) <==> Committed(s.th[k]) && !s.th[k].Asleep?)
  {
  }

  lemma MarkStays(s: System, step: Step, k: nat)
    requires Shaped(s) && Enabled(s, step) && k < |s.th| && s.killed[k]
    ensures var s' := Apply(s, step); |s'.killed| == |s.killed| && s'.killed[k]
  {
    hide Proceed;
    if step.Go? {
      GoMoves(s, step.k);
    }
  }

  lemma GoesAwake(s: System, k: nat)
    requires Invariant(s) && k < |s.th| && s.killed[k] && !Committed(s.th[k])
    ensures var s' := Proceed(s, k); |s'.th| == |s.th| && !Committed(s'.th[k])
  {
    GoMoves(s, k);
    if s.th[k].Test? && s.th[k].task.Write? {
      WriterChoice(s, k);
    } else if s.th[k].Test? {
      ReaderChoice(s, k);
    } else if s.th[k].Copy? {
      ReaderAdvances(s, k);
    } else {
      ShiftMoves(s, k);
    }
    hide WriterTest;
    hide ReaderTest;
    hide CopyOne;
    hide Shift;
    hide Invariant;
  }

  lemma StaysAwake(s: System, step: Step, k: nat)
    requires Invariant(s) && Enabled(s, step) && k < |s.th| && s.killed[k] && !Committed(s.th[k])
    ensures var s' := Apply(s, step); |s'.th| == |s.th| && !Committed(s'.th[k])
  {
    hide Proceed;
    StepMoves(s, step, k);
    if step.k != k {
      hide Apply;
    } else if step.Go? {
      GoesAwake(s, k);
    }
  }

  /** In every run a process killed while not on its way to sleep never sleeps on the pipe again. */
  lemma {:induction false} KilledNeverSleeps(states: seq<System>, steps: seq<Step>, n: nat, m: nat, k: nat)
    requires IsRun(states, steps) && n < m <= |steps| && steps[n] == Kill(k) && k < |states[n].th|
    requires !Committed(states[n].th[k]) || states[n].th[k].Asleep?
    ensures k < |states[m].th| == |states[m].killed| && states[m].killed[k] && !Committed(states[m].th[k])
  {
    var p := m - 1;
    assert Follows(states[p], steps[p], states[m]);
    RunKeeps(states, steps, p);
    RunKeeps(states, steps, m);
    if p == n {
      KillRouses(states[n], k);
    } else {
      KilledNeverSleeps(states, steps, n, p, k);
      hide IsRun;
      hide Apply;
      MarkStays(states[p], steps[p], k);
      StaysAwake(states[p], steps[p], k);
    }
  }

  lemma FallsAsleep(s: System, k: nat) returns (s1: System, s2: System, s3: System)
    requires Shaped(s) && k < |s.th| && s.table == Free && s.th[k].Sleep1? && s.killed[k]
    ensures Follows(s, Go(k), s1) && Follows(s1, Go(k), s2) && Follows(s2, Go(k), s3)
    ensures k < |s3.th| == |s3.killed| && s3.th[k].Asleep? && s3.killed[k]
  {
    s1 := Apply(s, Go(k));
    s2 := Apply(s1, Go(k));
    s3 := Apply(s2, Go(k));
  }

  /** A process killed after its last look at its mark does go to sleep, marked, if only it runs. */
  lemma KilledMaySleep(s: System, k: nat) returns (run: seq<System>)
    requires Invariant(s) && Enabled(s, Kill(k)) && Committed(s.th[k]) && !s.th[k].Asleep?
    ensures |run| > 0 && Follows(s, Kill(k), run[0])
    ensures forall i {:trigger run[i]} :: 0 < i < |run| ==> Follows(run[i - 1], Go(k), run[i])
    ensures var end := run[|run| - 1]; k < |end.th| == |end.killed| && end.th[k].Asleep? && end.killed[k]
  {
    assert Fine(s, k);
    var s0 := Apply(s, Kill(k));
    if s.th[k].Sleep1? {
      var s1, s2, s3 := FallsAsleep(s0, k);
      run := [s0, s1, s2, s3];
    } else {
      var s' := Apply(s0, Go(k));
      var s1, s2, s3 := FallsAsleep(s', k);
      run := [s0, s', s1, s2, s3];
    }
  }
}
