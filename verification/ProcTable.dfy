/**
The process table and the scans of proc.c over it: allocproc, wakeup1, exit, wait and kill,
each made under ptable.lock.
*/
module ProcTable {

  const NPROC := 64

  datatype Pstate = UNUSED | EMBRYO | SLEEPING | RUNNABLE | RUNNING | ZOMBIE

  /** What a process sleeps on: a process (in wait), any other kernel address, or nothing. */
  datatype Chan = NoChan | OnProc(slot: nat) | OnOther(address: nat)

  datatype Parent = NoParent | Child(of: nat)

  type Pid = x: int | -0x8000_0000 <= x < 0x8000_0000

  datatype Proc = Proc(state: Pstate, pid: Pid, parent: Parent, chan: Chan, killed: bool)

  type Table = t: seq<Proc> | |t| == NPROC witness seq(NPROC, _ => Proc(UNUSED, 0, NoParent, NoChan, false))

  /** `nextpid++` on a 32-bit int. */
  function NextPid(n: Pid): (r: Pid)
    ensures r != n && (r - n) % 0x1_0000_0000 == 1
  {
    if n == 0x7fff_ffff then -0x8000_0000 else n + 1
  }

  function WakeOne(p: Proc, chan: Chan): Proc
  {
    if p.state == SLEEPING && p.chan == chan then p.(state := RUNNABLE) else p
  }

  /** Every process asleep on chan made runnable. */
  function Woken(t: Table, chan: Chan): (r: Table)
    ensures forall i {:trigger r[i]} :: 0 <= i < NPROC ==> r[i] == WakeOne(t[i], chan)
  {
    seq(NPROC, i requires 0 <= i < NPROC => WakeOne(t[i], chan))
  }

  predicate IsChild(t: Table, i: nat, of: nat)
  {
    i < NPROC && t[i].parent == Child(of)
  }

  /** Some child of `of` among the first k slots is a zombie. */
  ghost predicate ZombieChild(t: Table, of: nat, k: nat)
  {
    exists i {:trigger IsChild(t, i, of)} :: 0 <= i < k && IsChild(t, i, of) && t[i].state == ZOMBIE
  }

  /** `of` has a child among the first k slots. */
  ghost predicate AnyChild(t: Table, of: nat, k: nat)
  {
    exists i :: 0 <= i < k && IsChild(t, i, of)
  }

  lemma OneMoreSlot(t: Table, of: nat, k: nat)
    requires k < NPROC
    ensures AnyChild(t, of, k + 1) <==> AnyChild(t, of, k) || IsChild(t, k, of)
    ensures ZombieChild(t, of, k + 1) <==> ZombieChild(t, of, k) || (IsChild(t, k, of) && t[k].state == ZOMBIE)
  {
  }

  /** Slot i after the children of me among the first k slots pass to init. */
  ghost function PassOne(t: Table, me: nat, init: nat, k: nat, i: nat): Proc
    requires i < NPROC
  {
    var p := if i < k && IsChild(t, i, me) then t[i].(parent := Child(init)) else t[i];
    if ZombieChild(t, me, k) then WakeOne(p, OnProc(init)) else p
  }

  /** The table after me has passed the children among its first k slots to init, waking init for a zombie. */
  ghost function Passed(t: Table, me: nat, init: nat, k: nat): (r: Table)
    ensures forall i {:trigger r[i]} :: 0 <= i < NPROC ==> r[i] == PassOne(t, me, init, k, i)
  {
    seq(NPROC, i requires 0 <= i < NPROC => PassOne(t, me, init, k, i))
  }

  /** The table exit leaves: the parent woken, the children passed on, me a zombie. */
  ghost function AfterExit(t: Table, me: nat, init: nat): Table
    requires me < NPROC
  {
    var u := if t[me].parent.Child? then Woken(t, OnProc(t[me].parent.of)) else Woken(t, NoChan);
    var v := Passed(u, me, init, NPROC);
    v[me := v[me].(state := ZOMBIE)]
  }

  /** What one scan of wait finds. */
  datatype Scan = Reap(slot: nat) | Give | Doze

  /** wait, called by me, does the right thing for table t. */
  ghost predicate Found(t: Table, me: nat, r: Scan)
    requires me < NPROC
  {
    match r
    case Reap(i) => IsChild(t, i, me) && t[i].state == ZOMBIE && !ZombieChild(t, me, i)
    case Give => !ZombieChild(t, me, NPROC) && (t[me].killed || !AnyChild(t, me, NPROC))
    case Doze => !ZombieChild(t, me, NPROC) && !t[me].killed && AnyChild(t, me, NPROC)
  }

  /** A reaped slot. */
  function Cleared(p: Proc): Proc
  {
    p.(state := UNUSED, pid := 0, parent := NoParent, killed := false)
  }

  function Killed(p: Proc): Proc
  {
    p.(killed := true, state := if p.state == SLEEPING then RUNNABLE else p.state)
  }

  class Ptable {
    const proc: array<Proc>
    var nextpid: Pid
    const initproc: nat

    ghost predicate Valid()
      reads this
    {
      proc.Length == NPROC && initproc < NPROC
    }

    constructor (initproc: nat)
      requires initproc < NPROC
      ensures Valid() && fresh(proc) && nextpid == 1 && this.initproc == initproc
      ensures forall i :: 0 <= i < NPROC ==> proc[i] == Proc(UNUSED, 0, NoParent, NoChan, false)
    {
      proc := new Proc[NPROC](_ => Proc(UNUSED, 0, NoParent, NoChan, false));
      nextpid := 1;
      this.initproc := initproc;
    }

    /**
    The first UNUSED slot becomes an EMBRYO with the next pid; with none, the table stays as it is. Without a kernel
    stack, as kalloc's answer says, the slot is UNUSED again, but the pid is gone.
    */
    method AllocProc(stack: bool) returns (found: bool, slot: nat)
      requires Valid()
      modifies this`nextpid, proc
      ensures slot <= NPROC && forall i :: 0 <= i < slot ==> old(proc[i]).state != UNUSED
      ensures found <==> stack && slot < NPROC
      ensures slot == NPROC ==> proc[..] == old(proc[..]) && nextpid == old(nextpid)
      ensures slot < NPROC ==>
                && old(proc[slot]).state == UNUSED && nextpid == NextPid(old(nextpid))
                && var p := old(proc[slot]).(pid := old(nextpid));
                   proc[..] == old(proc[..])[slot := if found then p.(state := EMBRYO) else p]
    {
      slot := 0;
      while slot < NPROC
        invariant slot <= NPROC && forall i :: 0 <= i < slot ==> proc[i].state != UNUSED
      {
        if proc[slot].state == UNUSED {
          proc[slot] := proc[slot].(state := EMBRYO, pid := nextpid);
          nextpid := NextPid(nextpid);
          if !stack {
            proc[slot] := proc[slot].(state := UNUSED);
            return false, slot;
          }
          return true, slot;
        }
        slot := slot + 1;
      }
      found := false;
    }

    method Wakeup1(chan: Chan)
      requires Valid()
      modifies proc
      ensures proc[..] == Woken(old(proc[..]), chan)
      ensures forall i {:trigger proc[i]} :: 0 <= i < NPROC ==>
                proc[i] == if old(proc[i]).state == SLEEPING && old(proc[i]).chan == chan
                           then old(proc[i]).(state := RUNNABLE) else old(proc[i])
    {
      ghost var t := proc[..];
      var i := 0;
      while i < NPROC
        invariant i <= NPROC
        invariant forall j :: 0 <= j < NPROC ==> proc[j] == if j < i then WakeOne(t[j], chan) else t[j]
      {
        if proc[i].state == SLEEPING && proc[i].chan == chan {
          proc[i] := proc[i].(state := RUNNABLE);
        }
        i := i + 1;
      }
    }

    /** exit, but for closing files: the panic over init, and the part from taking ptable.lock to the scheduler. */
    method Exit(me: nat) returns (panicked: bool)
      requires Valid() && me < NPROC
      modifies proc
      ensures panicked <==> me == initproc
      ensures proc[..] == if panicked then old(proc[..]) else AfterExit(old(proc[..]), me, initproc)
    {
      if me == initproc {
        return true;
      }
      panicked := false;
      ghost var t := proc[..];
      Wakeup1(if proc[me].parent.Child? then OnProc(proc[me].parent.of) else NoChan);
      ghost var u: Table := proc[..];
      var i := 0;
      assert forall j :: 0 <= j < NPROC ==> proc[j] == PassOne(u, me, initproc, 0, j);
      while i < NPROC
        invariant i <= NPROC
        invariant forall j :: 0 <= j < NPROC ==> proc[j] == PassOne(u, me, initproc, i, j)
      {
        OneMoreSlot(u, me, i);
        if proc[i].parent == Child(me) {
          proc[i] := proc[i].(parent := Child(initproc));
          if proc[i].state == ZOMBIE {
            Wakeup1(OnProc(initproc));
          }
        }
        i := i + 1;
      }
      assert proc[..] == Passed(u, me, initproc, NPROC);
      proc[me] := proc[me].(state := ZOMBIE);
    }

    /** One scan of wait by me, with what follows it: reaping, giving up, or going to sleep on itself. */
    method Wait(me: nat) returns (r: Scan, pid: Pid)
      requires Valid() && me < NPROC
      modifies proc
      ensures Found(old(proc[..]), me, r)
      ensures r.Reap? ==>
                && pid == old(proc[r.slot]).pid && proc[..] == old(proc[..])[r.slot := proc[r.slot]]
                && proc[r.slot] == Proc(UNUSED, 0, NoParent, old(proc[r.slot]).chan, false)
      ensures r.Give? ==> proc[..] == old(proc[..])
      ensures r.Doze? ==> proc[..] == old(proc[..])[me := old(proc[me]).(chan := OnProc(me), state := SLEEPING)]
    {
      ghost var t: Table := proc[..];
      var havekids, i := false, 0;
      while i < NPROC
        invariant i <= NPROC && proc[..] == t && !ZombieChild(t, me, i)
        invariant havekids <==> AnyChild(t, me, i)
      {
        assert proc[i] == proc[..][i];
        OneMoreSlot(t, me, i);
        if proc[i].parent == Child(me) {
          havekids := true;
          if proc[i].state == ZOMBIE {
            pid := proc[i].pid;
            proc[i] := Cleared(proc[i]);
            return Reap(i), pid;
          }
        }
        i := i + 1;
      }
      pid := -1;
      if !havekids || proc[me].killed {
        return Give, pid;
      }
      proc[me] := proc[me].(chan := OnProc(me), state := SLEEPING);
      return Doze, pid;
    }

    /** Marks the first process with that pid; an UNUSED slot, whose pid is 0, counts as one. */
    method Kill(pid: Pid) returns (found: bool, slot: nat)
      requires Valid()
      modifies proc
      ensures found <==> exists i {:trigger old(proc[i])} :: 0 <= i < NPROC && old(proc[i]).pid == pid
      ensures !found ==> proc[..] == old(proc[..])
      ensures found ==>
                && slot < NPROC && old(proc[slot]).pid == pid
                && (forall i :: 0 <= i < slot ==> old(proc[i]).pid != pid)
                && proc[..] == old(proc[..])[slot := proc[slot]]
                && proc[slot].killed && proc[slot].pid == pid
                && proc[slot].parent == old(proc[slot]).parent && proc[slot].chan == old(proc[slot]).chan
                && (old(proc[slot]).state == SLEEPING ==> proc[slot].state == RUNNABLE)
                && (old(proc[slot]).state != SLEEPING ==> proc[slot].state == old(proc[slot]).state)
    {
      slot := 0;
      while slot < NPROC
        invariant slot <= NPROC && forall i :: 0 <= i < slot ==> proc[i].pid != pid
      {
        if proc[slot].pid == pid {
          proc[slot] := proc[slot].(killed := true);
          if proc[slot].state == SLEEPING {
            proc[slot] := proc[slot].(state := RUNNABLE);
          }
          return true, slot;
        }
        slot := slot + 1;
      }
      return false, 0;
    }
  }
}
