/**
Whole runs: any sequence of reads, writes, and calls that make, label and free inodes, each in its transaction, does
what the same sequence does to a table of inodes with byte sequences, and the free map always accounts for exactly the
reserved blocks, the blocks of the trees and the blocks that a reused inode lost.
*/
module FileRuns {
  import opened Basics
  import opened Blocks
  import opened BlockTree
  import opened Inodes
  import opened Format
  import opened LogHeader
  import opened Spans
  import opened LogBooks
  import opened FileSystems
  import opened InodeAllocs

  /** The inodes with their bytes, and the devices that can be read and written. */
  datatype Table = Table(meta: map<nat, Meta>, files: Files, readers: set<nat>, writers: set<nat>)

  datatype Op =
    | Read(i: nat, off: Uint, n: Uint)
    | Write(i: nat, off: Uint, src: seq<Byte>)
    | Describe(i: nat, major: Short, minor: Short, nlink: Short)
    | Put(i: nat, last: bool)
    | Create(kind: Short)

  datatype Answer = Answer(io: Io, bytes: seq<Byte>)

  ghost predicate Whole(T: Table)
  {
    T.meta.Keys == T.files.Keys && forall i | i in T.meta :: |T.files[i]| == T.meta[i].size
  }

  predicate WellFormed(op: Op, inums: set<nat>)
  {
    (op.Create? || op.i in inums) && (op.Write? ==> |op.src| < TWO32)
  }

  predicate AllWellFormed(ops: seq<Op>, inums: set<nat>)
  {
    forall k :: 0 <= k < |ops| ==> WellFormed(ops[k], inums)
  }

  /** No inode but inode 0 is free. */
  ghost predicate NoneSpare(m: map<nat, Meta>)
  {
    forall j | j in m && 1 <= j :: m[j].kind != 0
  }

  /** The operations the kernel panics at: a use of a free inode, and a file too many. */
  ghost predicate Panics(T: Table, op: Op)
    requires WellFormed(op, T.meta.Keys)
  {
    match op
    case Put(_, _) => false
    case Create(_) => NoneSpare(T.meta)
    case _ => T.meta[op.i].kind == 0
  }

  lemma {:induction false} SpareUpto(m: map<nat, Meta>, n: nat, k: nat)
    requires (forall j | j in m && 1 <= j < n :: m[j].kind != 0) && k in m && 1 <= k && n <= k && m[k].kind == 0
    ensures exists j :: FirstFreeInode(m, j)
    decreases k - n
  {
    if 1 <= n && n in m && m[n].kind == 0 {
      assert FirstFreeInode(m, n);
    } else {
      SpareUpto(m, n + 1, k);
    }
  }

  /** The inode a new file gets. */
  ghost function Spare(m: map<nat, Meta>): (i: nat)
    requires !NoneSpare(m)
    ensures FirstFreeInode(m, i)
  {
    var k :| k in m && 1 <= k && m[k].kind == 0;
    SpareUpto(m, 0, k);
    var i :| FirstFreeInode(m, i);
    i
  }

  lemma SpareIs(m: map<nat, Meta>, i: nat)
    requires FirstFreeInode(m, i)
    ensures !NoneSpare(m) && Spare(m) == i
  {
  }

  /** The table after one operation. */
  ghost function Step(T: Table, op: Op): (T': Table)
    requires Whole(T) && WellFormed(op, T.meta.Keys)
    ensures Whole(T') && T'.meta.Keys == T.meta.Keys
  {
    if Panics(T, op) then T else
    match op
    case Read(_, _, _) => T
    case Write(i, off, src) =>
      if T.meta[i].kind == T_DEV || off > T.meta[i].size || off + |src| > MAXFILE * BSIZE then T
      else
        T.(files := T.files[i := Written(T.files[i], off, src)],
           meta := T.meta[i := T.meta[i].(size := Max(off + |src|, T.meta[i].size))])
    case Describe(i, major, minor, nlink) =>
      T.(meta := T.meta[i := T.meta[i].(major := major, minor := minor, nlink := nlink)])
    case Put(i, last) =>
      if last && T.meta[i].nlink == 0 then
        T.(files := T.files[i := []], meta := T.meta[i := T.meta[i].(kind := 0, size := 0)])
      else T
    case Create(kind) =>
      var i := Spare(T.meta);
      T.(files := T.files[i := []], meta := T.meta[i := Meta(kind, 0, 0, 0, 0)])
  }

  function ToDev(major: nat, devices: set<nat>): Io
  {
    if major < NDEV && major in devices then ToDevice(major) else Refused
  }

  /** What the caller is told. */
  ghost function Reply(T: Table, op: Op): Answer
    requires Whole(T) && WellFormed(op, T.meta.Keys)
  {
    match op
    case Read(i, off, n) =>
      if T.meta[i].kind == T_DEV then Answer(ToDev(T.meta[i].major, T.readers), [])
      else if off > T.meta[i].size || off + n >= TWO32 then Answer(Refused, [])
      else var bytes := T.files[i][off..Min(off + n, T.meta[i].size)]; Answer(Count(|bytes|), bytes)
    case Write(i, off, src) =>
      if T.meta[i].kind == T_DEV then Answer(ToDev(T.meta[i].major, T.writers), [])
      else if off > T.meta[i].size || off + |src| > MAXFILE * BSIZE then Answer(Refused, [])
      else Answer(Count(|src|), [])
    case Create(_) => Answer(Count(if NoneSpare(T.meta) then 0 else Spare(T.meta)), [])
    case _ => Answer(Count(0), [])
  }

  ghost function After(T: Table, ops: seq<Op>): (T': Table)
    requires Whole(T) && AllWellFormed(ops, T.meta.Keys)
    ensures Whole(T') && T'.meta.Keys == T.meta.Keys
    decreases |ops|
  {
    if ops == [] then T else After(Step(T, ops[0]), ops[1..])
  }

  ghost function Replies(T: Table, ops: seq<Op>): seq<Answer>
    requires Whole(T) && AllWellFormed(ops, T.meta.Keys)
    decreases |ops|
  {
    if ops == [] then [] else [Reply(T, ops[0])] + Replies(Step(T, ops[0]), ops[1..])
  }

  lemma {:induction false} RunOneMore(T: Table, ops: seq<Op>, op: Op)
    requires Whole(T) && WellFormed(op, T.meta.Keys) && AllWellFormed(ops, T.meta.Keys)
    ensures After(T, ops + [op]) == Step(After(T, ops), op)
    ensures Replies(T, ops + [op]) == Replies(T, ops) + [Reply(After(T, ops), op)]
    decreases |ops|
  {
    hide Step;
    hide Reply;
    if ops == [] {
      assert [] + [op] == [op];
    } else {
      assert (ops + [op])[1..] == ops[1..] + [op];
      RunOneMore(Step(T, ops[0]), ops[1..], op);
    }
  }

  /** The first k operations. */
  function First(ops: seq<Op>, k: nat, inums: set<nat>): (r: seq<Op>)
    requires AllWellFormed(ops, inums) && k <= |ops|
    ensures AllWellFormed(r, inums) && (k == 0 ==> r == []) && (k == |ops| ==> r == ops)
  {
    ops[..k]
  }

  lemma RunStep(T: Table, ops: seq<Op>, k: nat)
    requires Whole(T) && AllWellFormed(ops, T.meta.Keys) && k < |ops|
    ensures WellFormed(ops[k], T.meta.Keys)
    ensures After(T, First(ops, k + 1, T.meta.Keys)) == Step(After(T, First(ops, k, T.meta.Keys)), ops[k])
    ensures Replies(T, First(ops, k + 1, T.meta.Keys))
         == Replies(T, First(ops, k, T.meta.Keys)) + [Reply(After(T, First(ops, k, T.meta.Keys)), ops[k])]
  {
    hide Step;
    hide Reply;
    hide After;
    hide Replies;
    hide Whole;
    RunOneMore(T, ops[..k], ops[k]);
    assert ops[..k] + [ops[k]] == ops[..k + 1];
  }

  // ---- What the kernel's state is between operations ----

  /** A free inode has no block but in its doubly indirect tier. */
  ghost predicate Freed(t: Trees, m: map<nat, Meta>)
  {
    forall i | i in t && i in m && m[i].kind == 0 :: ThirdOnly(t[i])
  }

  /** No inode has a doubly indirect block. */
  ghost predicate NoThird(t: Trees)
  {
    forall i | i in t :: t[i][NDIRECT + 1] == 0
  }

  /** The file system holds the table. */
  ghost predicate Holding(fs: FileSystem, T: Table)
    reads fs
  {
    && fs.Consistent() && fs.trees.Keys == UpTo(fs.sb.ninodes)
    && fs.meta == T.meta && fs.Contents() == T.files && fs.devReaders == T.readers && fs.devWriters == T.writers
    && Freed(fs.trees, fs.meta)
  }

  /** Between operations. */
  ghost predicate Ready(fs: FileSystem, T: Table)
    reads fs
  {
    Holding(fs, T) && fs.Idle()
  }

  /** How an operation ends that does not answer. */
  ghost predicate Stopped(fs: FileSystem, halt: Halt, reserved: set<nat>)
    reads fs
  {
    && (halt.OutOfBlocks? ==> NoneFree(fs.view, fs.sb))
    && (halt.LogOverrun? ==> !LogReserved(reserved, fs.LogStart(), fs.sb))
    && !halt.OutOfRange? && !halt.FreeingFreeBlock?
  }

  /** The operation writes nothing that needs a doubly indirect block. */
  predicate Small(op: Op)
  {
    op.Write? ==> op.off + |op.src| <= (NDIRECT + NINDIRECT) * BSIZE
  }

  /** Blocks are lost, that is, marked without being in a tree, exactly when a new file gets an inode with a doubly
      indirect block. */
  ghost predicate Accounts(T: Table, op: Op, t0: Trees, r0: set<nat>, t1: Trees, r1: set<nat>)
  {
    && r0 <= r1
    && (r1 == r0 <==> op.Create? && !NoneSpare(T.meta) && Spare(T.meta) in t0 ==> t0[Spare(T.meta)][NDIRECT + 1] == 0)
    && (NoThird(t0) && Small(op) ==> NoThird(t1))
  }

  // ---- Writes ----

  lemma NoDblInSpan(lo: nat, hi: nat)
    requires hi <= NDIRECT + NINDIRECT
    ensures !InSpan(Dbl, lo, hi)
  {
    forall bn: nat | lo <= bn < hi && bn < MAXFILE ensures !OnPath(Dbl, DataSlot(bn)) {
      assert !OnPath(Dbl, Ind);
    }
  }

  /** A write below the doubly indirect tier starts none. */
  lemma NoDblWritten(v: Disk, sb: Super, t: Trees, g0: Books, v': Disk, t': Trees, g: Books, i: nat, off: nat, n: nat)
    requires Wf(v, sb, t, g0.reserved, g0.own) && g0 == Opened(g0.reserved, g0.own) && i in t && t[i][NDIRECT + 1] == 0
    requires Wf(v', sb, t', g.reserved, g.own) && Tracked(g, sb) && WriteSpan(g0, g, i, off, n) && i in t'
    requires off + n <= (NDIRECT + NINDIRECT) * BSIZE
    ensures t'[i][NDIRECT + 1] == 0
  {
    assert At(v, t[i], Dbl) == t[i][NDIRECT + 1] && At(v', t'[i], Dbl) == t'[i][NDIRECT + 1];
    EmptyIff(v, sb, t, g0.reserved, g0.own, i, Dbl);
    EmptyIff(v', sb, t', g.reserved, g.own, i, Dbl);
    NoDblInSpan(off / BSIZE, BlocksFor(off + n));
  }

  lemma NoThirdAt(t: Trees, i: nat)
    requires NoThird(t) && i in t
    ensures t[i][NDIRECT + 1] == 0
  {
  }

  lemma WroteHolding(T: Table, op: Op, t0: Trees, t1: Trees, m1: map<nat, Meta>)
    requires op.Write? && Whole(T) && WellFormed(op, T.meta.Keys) && !Panics(T, op) && Freed(t0, T.meta)
    requires op.i in t0 && op.i in t1 && t1 == t0[op.i := t1[op.i]]
    requires op.i in m1 && m1 == T.meta[op.i := T.meta[op.i].(size := m1[op.i].size)]
    ensures Freed(t1, m1)
    ensures NoThird(t0) && t1[op.i][NDIRECT + 1] == 0 ==> NoThird(t1)
  {
  }

  /** A write, not yet committed. */
  method WriteOp(fs: FileSystem, i: nat, off: Uint, src: seq<Byte>, ghost T: Table) returns (halt: Halt, a: Answer)
    requires Ready(fs, T) && Whole(T) && WellFormed(Write(i, off, src), T.meta.Keys) && !Panics(T, Write(i, off, src))
    modifies fs
    ensures halt.Running? || halt.LogFull? || (halt.OutOfBlocks? && NoneFree(fs.view, fs.sb))
    ensures halt.Running? ==>
              && Holding(fs, Step(T, Write(i, off, src))) && a == Reply(T, Write(i, off, src))
              && Accounts(T, Write(i, off, src), old(fs.trees), old(fs.g).reserved, fs.trees, fs.g.reserved)
  {
    hide Wf;
    hide Listing;
    hide Sorted;
    hide Filed;
    hide AllSynced;
    hide AllBacked;
    hide WriteSpan;
    hide NoneFree;
    hide Tracked;
    hide Linked;
    hide Posted;
    hide Starved;
    hide SpanSet;
    hide WroteAll;
    hide Written;
    hide FilesOf;
    hide Freed;
    hide NoThird;
    ghost var v0, t0, g0 := fs.view, fs.trees, fs.g;
    var r;
    halt, r := fs.Writei(i, src, off);
    a := Answer(r, []);
    if halt.Running? && r.Count? {
      if NoThird(t0) && Small(Write(i, off, src)) {
        NoThirdAt(t0, i);
        NoDblWritten(v0, fs.sb, t0, g0, fs.view, fs.trees, fs.g, i, off, |src|);
      }
      WroteHolding(T, Write(i, off, src), t0, fs.trees, fs.meta);
    }
  }

  /** The commit changes nothing that the table shows. */
  method End(fs: FileSystem, ghost T: Table) returns (halt: Halt)
    requires Holding(fs, T)
    modifies fs
    ensures Stopped(fs, halt, old(fs.g).reserved) && (halt.Running? || halt.LogOverrun?)
    ensures halt.Running? ==> Ready(fs, T) && fs.trees == old(fs.trees) && fs.g.reserved == old(fs.g).reserved
  {
    hide FileSystem.Consistent;
    hide FileSystem.Contents;
    hide NoneFree;
    hide LogReserved;
    hide Headed;
    hide Outside;
    hide Freed;
    halt := fs.Commit();
  }

  method DoRead(fs: FileSystem, i: nat, off: Uint, n: Uint, ghost T: Table) returns (halt: Halt, a: Answer)
    requires Ready(fs, T) && Whole(T) && WellFormed(Read(i, off, n), T.meta.Keys) && !Panics(T, Read(i, off, n))
    modifies fs
    ensures halt.Running? && Ready(fs, T) && a == Reply(T, Read(i, off, n))
    ensures fs.trees == old(fs.trees) && fs.g == old(fs.g)
  {
    hide Wf;
    hide Listing;
    hide Sorted;
    hide Filed;
    hide Tracked;
    hide Linked;
    hide Posted;
    hide AllSynced;
    hide AllBacked;
    hide FilesOf;
    hide Freed;
    var r, dst;
    halt, r, dst := fs.Readi(i, off, n);
    a := Answer(r, if r.Count? then dst else []);
  }

  method DoWrite(fs: FileSystem, i: nat, off: Uint, src: seq<Byte>, ghost T: Table) returns (halt: Halt, a: Answer)
    requires Ready(fs, T) && Whole(T) && WellFormed(Write(i, off, src), T.meta.Keys) && !Panics(T, Write(i, off, src))
    modifies fs
    ensures Stopped(fs, halt, old(fs.g).reserved) && !halt.NoType? && !halt.NoInodes?
    ensures halt.Running? ==>
              && Ready(fs, Step(T, Write(i, off, src))) && a == Reply(T, Write(i, off, src))
              && Accounts(T, Write(i, off, src), old(fs.trees), old(fs.g).reserved, fs.trees, fs.g.reserved)
  {
    hide FileSystem.Consistent;
    hide FileSystem.Contents;
    hide NoneFree;
    hide LogReserved;
    hide Step;
    hide Reply;
    halt, a := WriteOp(fs, i, off, src, T);
    if halt.Running? {
      halt := End(fs, Step(T, Write(i, off, src)));
    }
  }

  method DoDescribe(fs: FileSystem, i: nat, major: Short, minor: Short, nlink: Short, ghost T: Table)
    returns (halt: Halt)
    requires Ready(fs, T) && Whole(T) && i in T.meta && T.meta[i].kind != 0
    modifies fs
    ensures Stopped(fs, halt, old(fs.g).reserved) && !halt.NoType? && !halt.NoInodes?
    ensures halt.Running? ==>
              && Ready(fs, Step(T, Describe(i, major, minor, nlink)))
              && fs.trees == old(fs.trees) && fs.g.reserved == old(fs.g).reserved
  {
    hide FileSystem.Consistent;
    hide FileSystem.Contents;
    hide NoneFree;
    hide LogReserved;
    InTrees(fs, T, i);
    halt := Label(fs, i, major, minor, nlink);
    if halt.Running? {
      halt := End(fs, Step(T, Describe(i, major, minor, nlink)));
    }
  }

  lemma InTrees(fs: FileSystem, T: Table, i: nat)
    requires Holding(fs, T) && i in T.meta
    ensures i in fs.trees
  {
  }

  // ---- Freeing and reusing inodes ----

  lemma PutHolding(t: Trees, m: map<nat, Meta>, i: nat, n: Meta)
    requires Freed(t, m) && i in t && i in m
    ensures Freed(t[i := Cleared(t[i], NDIRECT + 1)], m[i := n])
    ensures NoThird(t) ==> NoThird(t[i := Cleared(t[i], NDIRECT + 1)])
  {
  }

  method DoPut(fs: FileSystem, i: nat, last: bool, ghost T: Table) returns (halt: Halt)
    requires Ready(fs, T) && Whole(T) && i in T.meta
    modifies fs
    ensures Stopped(fs, halt, old(fs.g).reserved) && !halt.NoType? && !halt.NoInodes?
    ensures halt.Running? ==>
              && Ready(fs, Step(T, Put(i, last))) && fs.g.reserved == old(fs.g).reserved
              && (NoThird(old(fs.trees)) ==> NoThird(fs.trees))
  {
    hide FileSystem.Consistent;
    hide FileSystem.Contents;
    hide NoneFree;
    hide LogReserved;
    hide MapsLogged;
    hide Listing;
    hide UpperTiers;
    hide Cleared;
    hide Freed;
    hide NoThird;
    InTrees(fs, T, i);
    PutHolding(fs.trees, fs.meta, i, fs.meta[i].(kind := 0, size := 0));
    halt := Iput(fs, i, last);
    if halt.Running? {
      halt := End(fs, Step(T, Put(i, last)));
    }
  }

  lemma CreateHolding(t: Trees, m: map<nat, Meta>, i: nat, n: Meta)
    requires Freed(t, m) && i in t && i in m
    ensures Freed(t[i := EmptyAddrs()], m[i := n]) && (NoThird(t) ==> NoThird(t[i := EmptyAddrs()]))
  {
  }

  /** A reused inode loses blocks exactly when it had a doubly indirect block. */
  lemma CreateAccounts(T: Table, v: Disk, sb: Super, t: Trees, reserved: set<nat>, own: map<nat, Owner>, kind: Short,
                       i: nat)
    requires Wf(v, sb, t, reserved, own) && Freed(t, T.meta) && i in t && FirstFreeInode(T.meta, i)
    ensures Accounts(T, Create(kind), t, reserved, t[i := EmptyAddrs()], reserved + BlocksOf(own, i))
  {
    SpareIs(T.meta, i);
    ReuseLoses(v, sb, t, reserved, own, i);
    CreateHolding(t, T.meta, i, T.meta[i]);
    hide Freed;
    hide NoThird;
    forall b | b in BlocksOf(own, i) ensures b !in reserved {
    }
  }

  lemma NoneSpareIff(m: map<nat, Meta>, n: nat)
    requires m.Keys == UpTo(n)
    ensures NoneSpare(m) <==> NoFreeInode(m, n)
  {
  }

  lemma MoreReserved(r0: set<nat>, r1: set<nat>, lo: int, sb: Super)
    requires r0 <= r1
    ensures LogReserved(r0, lo, sb) ==> LogReserved(r1, lo, sb)
  {
  }

  method DoCreate(fs: FileSystem, kind: Short, ghost T: Table) returns (halt: Halt, i: nat)
    requires Ready(fs, T) && Whole(T)
    modifies fs
    ensures Stopped(fs, halt, old(fs.g).reserved) && !halt.NoType? && (halt.NoInodes? <==> NoneSpare(T.meta))
    ensures halt.Running? ==>
              && Ready(fs, Step(T, Create(kind))) && Answer(Count(i), []) == Reply(T, Create(kind))
              && Accounts(T, Create(kind), old(fs.trees), old(fs.g).reserved, fs.trees, fs.g.reserved)
  {
    hide FileSystem.Contents;
    hide NoneFree;
    hide LogReserved;
    hide Accounts;
    hide Freed;
    hide NoThird;
    hide EmptyAddrs;
    hide BlocksOf;
    hide NoneSpare;
    hide FirstFreeInode;
    hide NoFreeInode;
    hide Wf;
    hide Listing;
    hide Sorted;
    hide Filed;
    hide Tracked;
    hide Linked;
    hide Posted;
    hide AllSynced;
    hide AllBacked;
    ghost var v0, t0, g0, m0 := fs.view, fs.trees, fs.g, fs.meta;
    NoneSpareIff(fs.meta, fs.sb.ninodes);
    halt, i := Ialloc(fs, kind);
    if halt.Running? {
      SpareIs(T.meta, i);
      CreateAccounts(T, v0, fs.sb, t0, g0.reserved, g0.own, kind, i);
      CreateHolding(t0, m0, i, Meta(kind, 0, 0, 0, 0));
      MoreReserved(g0.reserved, fs.g.reserved, fs.LogStart(), fs.sb);
      halt := End(fs, Step(T, Create(kind)));
    }
  }

  // ---- Runs ----

  /** One operation in one transaction. */
  method Do(fs: FileSystem, op: Op, ghost T: Table) returns (halt: Halt, a: Answer)
    requires Ready(fs, T) && Whole(T) && WellFormed(op, T.meta.Keys)
    modifies fs
    ensures Stopped(fs, halt, old(fs.g).reserved) && (Panics(T, op) <==> halt.NoType? || halt.NoInodes?)
    ensures halt.Running? ==>
              && Ready(fs, Step(T, op)) && a == Reply(T, op)
              && Accounts(T, op, old(fs.trees), old(fs.g).reserved, fs.trees, fs.g.reserved)
  {
    hide FileSystem.Consistent;
    hide FileSystem.Idle;
    hide FileSystem.Contents;
    hide NoneFree;
    hide LogReserved;
    hide Freed;
    hide NoThird;
    hide NoneSpare;
    a := Answer(Count(0), []);
    if !op.Create? && !op.Put? && fs.meta[op.i].kind == 0 {
      return NoType, a;
    }
    match op {
      case Read(i, off, n) => halt, a := DoRead(fs, i, off, n, T);
      case Write(i, off, src) => halt, a := DoWrite(fs, i, off, src, T);
      case Describe(i, major, minor, nlink) => halt := DoDescribe(fs, i, major, minor, nlink, T);
      case Put(i, last) => halt := DoPut(fs, i, last, T);
      case Create(kind) =>
        var i;
        halt, i := DoCreate(fs, kind, T);
        a := Answer(Count(i), []);
    }
  }

  ghost predicate AllSmall(ops: seq<Op>)
  {
    forall k :: 0 <= k < |ops| ==> Small(ops[k])
  }

  /** What a run keeps of the accounting: nothing is lost as long as no file reaches the doubly indirect tier. */
  ghost predicate Kept(ops: seq<Op>, t0: Trees, r0: set<nat>, t: Trees, r: set<nat>)
  {
    r0 <= r && (NoThird(t0) && AllSmall(ops) ==> NoThird(t) && r == r0)
  }

  lemma KeptMore(T: Table, ops: seq<Op>, k: nat, t0: Trees, r0: set<nat>, t1: Trees, r1: set<nat>, t2: Trees,
                 r2: set<nat>)
    requires k < |ops| && Kept(ops, t0, r0, t1, r1) && Accounts(T, ops[k], t1, r1, t2, r2)
    ensures Kept(ops, t0, r0, t2, r2)
  {
    if NoThird(t0) && AllSmall(ops) {
      assert Small(ops[k]);
    }
  }

  /**
  Any run refines the table of inodes and bytes, or stops: where the table says the kernel panics, at a full disk, at a
  full log, or at a transaction that was given a sector of the log as a file block. The last cannot happen when the free
  map reserves the log.
  */
  method Run(fs: FileSystem, ops: seq<Op>, ghost T: Table) returns (halt: Halt, done: nat, answers: seq<Answer>)
    requires Ready(fs, T) && Whole(T) && AllWellFormed(ops, T.meta.Keys)
    modifies fs
    ensures done <= |ops| && (halt.Running? <==> done == |ops|)
    ensures Stopped(fs, halt, old(fs.g).reserved) && answers == Replies(T, First(ops, done, T.meta.Keys))
    ensures done < |ops| ==>
              (Panics(After(T, First(ops, done, T.meta.Keys)), ops[done]) <==> halt.NoType? || halt.NoInodes?)
    ensures halt.Running? ==>
              Ready(fs, After(T, ops)) && Kept(ops, old(fs.trees), old(fs.g).reserved, fs.trees, fs.g.reserved)
  {
    hide FileSystem.Consistent;
    hide FileSystem.Idle;
    hide FileSystem.Contents;
    hide Ready;
    hide Panics;
    hide Step;
    hide Reply;
    hide After;
    hide Replies;
    hide Accounts;
    hide Whole;
    hide NoThird;
    hide AllSmall;
    hide NoneFree;
    hide LogReserved;
    done, answers, halt := 0, [], Running;
    ghost var now := T;
    NothingDone(T, ops);
    while done < |ops|
      invariant 0 <= done <= |ops| && halt.Running? && now.meta.Keys == T.meta.Keys && Whole(now)
      invariant Ready(fs, now) && Kept(ops, old(fs.trees), old(fs.g).reserved, fs.trees, fs.g.reserved)
      invariant now == After(T, First(ops, done, T.meta.Keys)) && answers == Replies(T, First(ops, done, T.meta.Keys))
    {
      ghost var t1, r1 := fs.trees, fs.g.reserved;
      var a;
      MoreReserved(old(fs.g).reserved, r1, fs.LogStart(), fs.sb);
      halt, a := Do(fs, ops[done], now);
      if !halt.Running? {
        return;
      }
      RunStep(T, ops, done);
      KeptMore(now, ops, done, old(fs.trees), old(fs.g).reserved, t1, r1, fs.trees, fs.g.reserved);
      now := Step(now, ops[done]);
      answers := answers + [a];
      done := done + 1;
    }
  }

  lemma NothingDone(T: Table, ops: seq<Op>)
    requires Whole(T) && AllWellFormed(ops, T.meta.Keys)
    ensures After(T, First(ops, 0, T.meta.Keys)) == T && Replies(T, First(ops, 0, T.meta.Keys)) == []
  {
  }

  /** As many free inodes without bytes as there are inodes. */
  function EmptyTable(n: nat, readers: set<nat>, writers: set<nat>): (T: Table)
    ensures T.meta.Keys == T.files.Keys == UpTo(n)
  {
    Table(map i | i in UpTo(n) :: EMPTY_META, map i | i in UpTo(n) :: [], readers, writers)
  }

  lemma FormattedReady(fs: FileSystem)
    requires fs.Consistent() && fs.Idle() && (forall i :: i in fs.trees <==> 0 <= i < fs.sb.ninodes)
    requires forall i | i in fs.trees :: fs.trees[i] == EmptyAddrs() && (i in fs.meta ==> fs.meta[i] == EMPTY_META)
    ensures Ready(fs, EmptyTable(fs.sb.ninodes, fs.devReaders, fs.devWriters)) && NoThird(fs.trees)
  {
    hide Wf;
    hide Listing;
    hide Sorted;
    hide Filed;
    hide Tracked;
    hide Linked;
    hide Posted;
    hide AllSynced;
    hide AllBacked;
    hide Recorded;
    var T := EmptyTable(fs.sb.ninodes, fs.devReaders, fs.devWriters);
    assert fs.trees.Keys == UpTo(fs.sb.ninodes);
    assert fs.meta == T.meta;
    assert fs.Contents() == T.files;
  }

  /** Any run on a freshly formatted disk refines the table that starts with free inodes. */
  method RunFormatted(sb: Super, logSize: nat, used: nat, readers: set<nat>, writers: set<nat>, ops: seq<Op>)
    returns (fs: FileSystem, halt: Halt, done: nat, answers: seq<Answer>)
    requires DataStart(sb) <= used <= sb.size < TWO32 && used < BITS && DataStart(sb) + logSize <= sb.size
    requires AllWellFormed(ops, UpTo(sb.ninodes))
    ensures done <= |ops| && (halt.Running? <==> done == |ops|)
    ensures Whole(EmptyTable(sb.ninodes, readers, writers))
    ensures answers == Replies(EmptyTable(sb.ninodes, readers, writers), First(ops, done, UpTo(sb.ninodes)))
    ensures halt.Running? ==> Ready(fs, After(EmptyTable(sb.ninodes, readers, writers), ops))
    ensures halt.Running? && AllSmall(ops) ==> fs.g.reserved == UpTo(used)
    ensures halt.LogOverrun? ==> used < sb.size
  {
    fs := new FileSystem(sb, logSize, used, readers, writers);
    ghost var T := EmptyTable(sb.ninodes, readers, writers);
    FormattedReady(fs);
    hide FileSystem.Consistent;
    hide FileSystem.Idle;
    hide FileSystem.Contents;
    hide Ready;
    hide After;
    hide Replies;
    hide NoThird;
    hide AllSmall;
    halt, done, answers := Run(fs, ops, T);
  }

  /** Block b is in some slot of some tree. */
  ghost predicate InTree(v: Disk, t: Trees, b: nat)
  {
    exists i, s: Slot {:trigger At(v, t[i], s)} :: i in t && s.Valid() && At(v, t[i], s) == b
  }

  /** The free map marks exactly the reserved blocks and the blocks found in the trees. */
  lemma Accounting(v: Disk, sb: Super, t: Trees, reserved: set<nat>, own: map<nat, Owner>, b: nat)
    requires Wf(v, sb, t, reserved, own) && 0 < b < sb.size
    ensures InUse(v, sb, b) <==> b in reserved || InTree(v, t, b)
  {
    if b in own {
      assert At(v, t[own[b].inum], own[b].slot) == b;
    }
    if InTree(v, t, b) {
      var i, s: Slot :| i in t && s.Valid() && At(v, t[i], s) == b;
      assert Names(own, At(v, t[i], s), i, s);
    }
  }

  /** No block is in two slots, of one inode or of two. */
  lemma NoSharing(v: Disk, sb: Super, t: Trees, reserved: set<nat>, own: map<nat, Owner>, i: nat, s: Slot, j: nat,
                  r: Slot)
    requires Wf(v, sb, t, reserved, own) && i in t && j in t && s.Valid() && r.Valid()
    requires At(v, t[i], s) == At(v, t[j], r) != 0
    ensures i == j && s == r
  {
    assert Names(own, At(v, t[i], s), i, s) && Names(own, At(v, t[j], r), j, r);
  }

  lemma EmptyThird(v: Disk, a: Addrs, s: Slot)
    requires s.Valid() && a[NDIRECT + 1] == 0 && (s.Dbl? || s.DblMid? || s.DblData?)
    ensures At(v, a, s) == 0
  {
    assert At(v, a, Dbl) == 0;
    if s.DblData? {
      assert At(v, a, DblMid(s.j)) == 0;
    }
  }

  /** itrunc gives back an inode's whole tree exactly when the inode has no doubly indirect block. */
  lemma WholeTreeFreed(v: Disk, sb: Super, t: Trees, reserved: set<nat>, own: map<nat, Owner>, i: nat)
    requires Wf(v, sb, t, reserved, own) && i in t
    ensures UpperTiers(own, i) == (set b | b in own && own[b].inum == i) <==> t[i][NDIRECT + 1] == 0
  {
    var all := set b | b in own && own[b].inum == i;
    var d := t[i][NDIRECT + 1];
    assert At(v, t[i], Dbl) == d;
    if d != 0 {
      assert Names(own, d, i, Dbl);
      assert d in all && d !in UpperTiers(own, i);
    } else {
      forall b | b in all ensures b in UpperTiers(own, i) {
        assert At(v, t[own[b].inum], own[b].slot) == b;
        if own[b].slot.Dbl? || own[b].slot.DblMid? || own[b].slot.DblData? {
          EmptyThird(v, t[i], own[b].slot);
          assert false;
        }
      }
    }
  }
}
