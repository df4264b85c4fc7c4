/**
The shell's parser (sh.c) over a line buffer: the recursive-descent functions with their cursor,
and nulterminate, which turns every word found into a C string in place.
*/
module Shell {
  import opened ShellLex
  import opened ShellGrammar
  import opened ShellSentences

  /** A word as the parser records it: where it begins and where it ends in the buffer. */
  datatype Span = Span(q: nat, eq: nat)

  type Cmd = Tree<Span>

  /** A panic of the parser, or what it built and the cursor. */
  datatype Outcome<T> = Panic(error: Error) | Built(value: T, p: nat)

  ghost predicate PlacedWord(s: Line, w: Span)
  {
    WordAt(s, w.q, w.eq)
  }

  ghost predicate PlacedWords(s: Line, ws: seq<Span>)
  {
    forall k :: 0 <= k < |ws| ==> PlacedWord(s, ws[k])
  }

  ghost predicate PlacedTargets(s: Line, rs: seq<Target<Span>>)
  {
    forall k :: 0 <= k < |rs| ==> PlacedWord(s, rs[k].file)
  }

  /** Every word of the command is a word of the line. */
  ghost predicate Placed(s: Line, t: Cmd)
  {
    match t
    case Exec(args) => PlacedWords(s, args)
    case Redir(c, r) => PlacedWord(s, r.file) && Placed(s, c)
    case Pipe(l, r) => Placed(s, l) && Placed(s, r)
    case List(l, r) => Placed(s, l) && Placed(s, r)
    case Back(c) => Placed(s, c)
  }

  ghost function ReadWord(s: Line, w: Span): string
    requires PlacedWord(s, w)
  {
    s[w.q..w.eq]
  }

  ghost function ReadWords(s: Line, ws: seq<Span>): seq<string>
    requires PlacedWords(s, ws)
  {
    seq(|ws|, k requires 0 <= k < |ws| => ReadWord(s, ws[k]))
  }

  ghost function ReadTarget(s: Line, r: Target<Span>): Target<string>
    requires PlacedWord(s, r.file)
  {
    Target(ReadWord(s, r.file), r.mode, r.fd)
  }

  ghost function ReadTargets(s: Line, rs: seq<Target<Span>>): seq<Target<string>>
    requires PlacedTargets(s, rs)
  {
    seq(|rs|, k requires 0 <= k < |rs| => ReadTarget(s, rs[k]))
  }

  /** The command with its words as text. */
  ghost function Read(s: Line, t: Cmd): Tree<string>
    requires Placed(s, t)
  {
    match t
    case Exec(args) => Exec(ReadWords(s, args))
    case Redir(c, r) => Redir(Read(s, c), ReadTarget(s, r))
    case Pipe(l, r) => Pipe(Read(s, l), Read(s, r))
    case List(l, r) => List(Read(s, l), Read(s, r))
    case Back(c) => Back(Read(s, c))
  }

  lemma {:induction false} WrapPlaced(s: Line, t: Cmd, rs: seq<Target<Span>>)
    requires Placed(s, t) && PlacedTargets(s, rs)
    ensures Placed(s, Wrap(t, rs)) && Read(s, Wrap(t, rs)) == Wrap(Read(s, t), ReadTargets(s, rs))
    decreases |rs|
  {
    if rs != [] {
      assert ReadTargets(s, rs)[1..] == ReadTargets(s, rs[1..]);
      WrapPlaced(s, Redir(t, rs[0]), rs[1..]);
    }
  }

  /** A parsing function started at p agrees with the grammar on the tokens from p. */
  ghost predicate Agrees(s: Line, p: nat, r: Outcome<Cmd>, d: Parsed)
  {
    match r
    case Panic(e) => d == Fail(e)
    case Built(t, next) => p <= next <= |s| && Placed(s, t) && d == Done(Read(s, t), Tokens(s, next))
  }

  /** What is left to read after the redirections found so far. */
  ghost function After(found: seq<Target<string>>, r: Targets): Targets
  {
    if r.Found? then Found(found + r.targets, r.rest) else r
  }

  lemma RedirsStep(ts: seq<Token>, w: string)
    requires StartsRedir(ts) && |ts| >= 2 && ts[1] == Word(w)
    ensures Redirs(ts) == After([TargetOf(Code(ts[0]), w)], Redirs(ts[1..][1..]))
  {
    assert ts[1..][1..] == ts[2..];
  }

  lemma AfterAfter(a: seq<Target<string>>, b: seq<Target<string>>, r: Targets)
    ensures After(a, After(b, r)) == After(a + b, r)
  {
    if r.Found? {
      assert a + (b + r.targets) == a + b + r.targets;
    }
  }

  /** One turn of the loop of parseredirs. */
  method ParseRedir(s: Line, p: nat) returns (r: Outcome<Target<Span>>)
    requires p <= |s| && StartsRedir(Tokens(s, p))
    ensures r.Panic? ==> Redirs(Tokens(s, p)) == NoTargets(r.error)
    ensures r.Built? ==> p < r.p <= |s| && PlacedWord(s, r.value.file)
    ensures r.Built? ==> Redirs(Tokens(s, p)) == After([ReadTarget(s, r.value)], Redirs(Tokens(s, r.p)))
  {
    ghost var ts := Tokens(s, p);
    var tok, _, _, p1 := GetToken(s, p);
    var kind, q, eq, p2 := GetToken(s, p1);
    if kind != 'a' {
      return Panic(MissingFile);
    }
    RedirsStep(ts, s[q..eq]);
    return Built(TargetOf(tok, Span(q, eq)), p2);
  }

  lemma ReadOneMore(s: Line, rs: seq<Target<Span>>, r: Target<Span>)
    requires PlacedTargets(s, rs) && PlacedWord(s, r.file)
    ensures PlacedTargets(s, rs + [r]) && ReadTargets(s, rs + [r]) == ReadTargets(s, rs) + [ReadTarget(s, r)]
  {
  }

  lemma BeginsRedir(ts: seq<Token>)
    ensures (ts != [] && BeginsIn(ts[0], "<>")) == StartsRedir(ts)
  {
  }

  method ParseRedirs(s: Line, start: nat) returns (r: Outcome<seq<Target<Span>>>)
    requires start <= |s|
    ensures r.Panic? ==> Redirs(Tokens(s, start)) == NoTargets(r.error)
    ensures r.Built? ==> start <= r.p <= |s| && PlacedTargets(s, r.value)
    ensures r.Built? ==> Redirs(Tokens(s, start)) == Found(ReadTargets(s, r.value), Tokens(s, r.p))
  {
    var found: seq<Target<Span>> := [];
    var more, p := Peek(s, start, "<>");
    BeginsRedir(Tokens(s, start));
    while more
      invariant start <= p <= |s| && PlacedTargets(s, found)
      invariant more == StartsRedir(Tokens(s, p))
      invariant Redirs(Tokens(s, start)) == After(ReadTargets(s, found), Redirs(Tokens(s, p)))
      decreases |s| - p
    {
      var one := ParseRedir(s, p);
      if one.Panic? {
        return Panic(one.error);
      }
      ReadOneMore(s, found, one.value);
      AfterAfter(ReadTargets(s, found), [ReadTarget(s, one.value)], Redirs(Tokens(s, one.p)));
      found := found + [one.value];
      more, p := Peek(s, one.p, "<>");
      BeginsRedir(Tokens(s, one.p));
    }
    return Built(found, p);
  }

  lemma Begins(ts: seq<Token>, c: char)
    requires c != '>'
    ensures (ts != [] && BeginsIn(ts[0], [c])) == Starts(ts, c)
  {
  }

  lemma BeginsEnd(ts: seq<Token>)
    ensures (ts != [] && BeginsIn(ts[0], "|)&;")) == (ts != [] && EndsExec(ts))
  {
  }

  /** The arguments and redirections of a simple command read so far agree with the grammar. */
  ghost predicate Collected(s: Line, start: nat, args: seq<Span>, rs: seq<Target<Span>>, p: nat)
  {
    && start <= p <= |s| && |args| < MAXARGS && PlacedWords(s, args) && PlacedTargets(s, rs)
    && ExecCmd(Tokens(s, start)) == Args(ReadWords(s, args), ReadTargets(s, rs), Tokens(s, p))
  }

  lemma CollectMore(s: Line, args: seq<Span>, w: Span, rs: seq<Target<Span>>, more: seq<Target<Span>>)
    requires PlacedWords(s, args) && PlacedWord(s, w) && PlacedTargets(s, rs) && PlacedTargets(s, more)
    ensures PlacedWords(s, args + [w]) && ReadWords(s, args + [w]) == ReadWords(s, args) + [ReadWord(s, w)]
    ensures PlacedTargets(s, rs + more) && ReadTargets(s, rs + more) == ReadTargets(s, rs) + ReadTargets(s, more)
  {
  }

  /** One turn of the loop of parseexec, after gettoken has found a token. */
  method ParseArg(s: Line, ghost start: nat, args: seq<Span>, rs: seq<Target<Span>>, ghost p: nat, tok: char, w: Span,
                  next: nat)
    returns (r: Outcome<(seq<Span>, seq<Target<Span>>)>)
    requires Collected(s, start, args, rs, p) && !EndsExec(Tokens(s, p)) && Took(s, p, tok, w.q, w.eq, next)
    ensures r.Panic? ==> ExecCmd(Tokens(s, start)) == Fail(r.error)
    ensures r.Built? ==> p < r.p && Collected(s, start, r.value.0, r.value.1, r.p)
  {
    if tok != 'a' {
      return Panic(Syntax);
    }
    if |args + [w]| >= MAXARGS {
      return Panic(TooManyArgs);
    }
    var more := ParseRedirs(s, next);
    if more.Panic? {
      return Panic(more.error);
    }
    CollectMore(s, args, w, rs, more.value);
    return Built((args + [w], rs + more.value), more.p);
  }

  method ParseExec(s: Line, start: nat) returns (r: Outcome<Cmd>)
    requires start <= |s|
    ensures Agrees(s, start, r, ExecCmd(Tokens(s, start)))
    decreases |s| - start, 1
  {
    var block, p := Peek(s, start, "(");
    Begins(Tokens(s, start), '(');
    if block {
      r := ParseBlock(s, p);
      return;
    }
    var first := ParseRedirs(s, p);
    if first.Panic? {
      return Panic(first.error);
    }
    var args: seq<Span> := [];
    var rs := first.value;
    assert ReadWords(s, args) == [];
    var stop;
    stop, p := Peek(s, first.p, "|)&;");
    BeginsEnd(Tokens(s, p));
    while !stop
      invariant Collected(s, start, args, rs, p)
      invariant stop == (Tokens(s, p) != [] && EndsExec(Tokens(s, p)))
      decreases |s| - p
    {
      var tok, q, eq, next := GetToken(s, p);
      if tok == '\0' {
        break;
      }
      var arg := ParseArg(s, start, args, rs, p, tok, Span(q, eq), next);
      if arg.Panic? {
        return Panic(arg.error);
      }
      args, rs := arg.value.0, arg.value.1;
      stop, p := Peek(s, arg.p, "|)&;");
      BeginsEnd(Tokens(s, p));
    }
    WrapPlaced(s, Exec(args), rs);
    return Built(Wrap(Exec(args), rs), p);
  }

  method ParseBlock(s: Line, start: nat) returns (r: Outcome<Cmd>)
    requires start <= |s|
    ensures Agrees(s, start, r, Block(Tokens(s, start)))
    decreases |s| - start, 0
  {
    var open, here := Peek(s, start, "(");
    Begins(Tokens(s, start), '(');
    if !open {
      return Panic(NotBlock);
    }
    var _, _, _, p := GetToken(s, here);
    var line := ParseLine(s, p);
    if line.Panic? {
      return line;
    }
    var close;
    close, p := Peek(s, line.p, ")");
    Begins(Tokens(s, line.p), ')');
    if !close {
      return Panic(MissingParen);
    }
    var _, _, _, after := GetToken(s, p);
    var rs := ParseRedirs(s, after);
    if rs.Panic? {
      return Panic(rs.error);
    }
    WrapPlaced(s, line.value, rs.value);
    return Built(Wrap(line.value, rs.value), rs.p);
  }

  method ParsePipe(s: Line, start: nat) returns (r: Outcome<Cmd>)
    requires start <= |s|
    ensures Agrees(s, start, r, PipeCmd(Tokens(s, start)))
    decreases |s| - start, 2
  {
    var left := ParseExec(s, start);
    if left.Panic? {
      return left;
    }
    var bar, p := Peek(s, left.p, "|");
    Begins(Tokens(s, left.p), '|');
    if !bar {
      return Built(left.value, p);
    }
    var _, _, _, after := GetToken(s, p);
    var right := ParsePipe(s, after);
    if right.Panic? {
      return right;
    }
    return Built(Pipe(left.value, right.value), right.p);
  }

  /** The loop of parseline over '&'. */
  method ParseAmps(s: Line, first: Cmd, start: nat) returns (cmd: Cmd, p: nat)
    requires start <= |s| && Placed(s, first)
    ensures start <= p <= |s| && Placed(s, cmd)
    ensures Ands(Read(s, first), Tokens(s, start)) == Done(Read(s, cmd), Tokens(s, p))
  {
    cmd := first;
    var amp;
    amp, p := Peek(s, start, "&");
    Begins(Tokens(s, p), '&');
    while amp
      invariant start <= p <= |s| && Placed(s, cmd)
      invariant amp == Starts(Tokens(s, p), '&')
      invariant Ands(Read(s, first), Tokens(s, start)) == Ands(Read(s, cmd), Tokens(s, p))
      decreases |s| - p
    {
      var _, _, _, after := GetToken(s, p);
      cmd := Back(cmd);
      amp, p := Peek(s, after, "&");
      Begins(Tokens(s, p), '&');
    }
  }

  method ParseLine(s: Line, start: nat) returns (r: Outcome<Cmd>)
    requires start <= |s|
    ensures Agrees(s, start, r, LineCmd(Tokens(s, start)))
    decreases |s| - start, 3
  {
    r := ParsePipe(s, start);
    if r.Panic? {
      return;
    }
    var cmd, p := ParseAmps(s, r.value, r.p);
    var semi;
    semi, p := Peek(s, p, ";");
    Begins(Tokens(s, p), ';');
    if !semi {
      return Built(cmd, p);
    }
    var _, _, _, after := GetToken(s, p);
    var rest := ParseLine(s, after);
    if rest.Panic? {
      return rest;
    }
    return Built(List(cmd, rest.value), rest.p);
  }

  // ---- nulterminate ----

  /** The places nulterminate writes to. */
  ghost function Ends(t: Cmd): set<nat>
  {
    match t
    case Exec(args) => set k | 0 <= k < |args| :: args[k].eq
    case Redir(c, r) => Ends(c) + {r.file.eq}
    case Pipe(l, r) => Ends(l) + Ends(r)
    case List(l, r) => Ends(l) + Ends(r)
    case Back(c) => Ends(c)
  }

  lemma {:induction false} EndsPlaced(s: Line, t: Cmd, e: nat)
    requires Placed(s, t) && e in Ends(t)
    ensures e <= |s| && (e < |s| ==> !IsWordChar(s[e]))
  {
    match t
    case Exec(args) =>
      var k :| 0 <= k < |args| && args[k].eq == e;
      assert PlacedWord(s, args[k]);
    case Redir(c, r) =>
      if e in Ends(c) {
        EndsPlaced(s, c, e);
      }
    case Pipe(l, r) =>
      if e in Ends(l) {
        EndsPlaced(s, l, e);
      } else {
        EndsPlaced(s, r, e);
      }
    case List(l, r) =>
      if e in Ends(l) {
        EndsPlaced(s, l, e);
      } else {
        EndsPlaced(s, r, e);
      }
    case Back(c) => EndsPlaced(s, c, e);
  }

  /** The buffer with NULs at the given places. */
  ghost predicate Ended(before: seq<char>, after: seq<char>, ends: set<nat>)
  {
    |after| == |before| && forall k {:trigger after[k]} :: 0 <= k < |after| ==>
        after[k] == if k in ends then '\0' else before[k]
  }

  lemma EndedTwice(a: seq<char>, b: seq<char>, c: seq<char>, x: set<nat>, y: set<nat>)
    requires Ended(a, b, x) && Ended(b, c, y)
    ensures Ended(a, c, x + y)
  {
  }

  method NulTerminate(buf: array<char>, t: Cmd)
    requires forall e :: e in Ends(t) ==> e < buf.Length
    modifies buf
    ensures Ended(old(buf[..]), buf[..], Ends(t))
    decreases t
  {
    ghost var b0 := buf[..];
    match t
    case Exec(args) =>
      var i := 0;
      while i < |args|
        invariant 0 <= i <= |args|
        invariant Ended(b0, buf[..], set k | 0 <= k < i :: args[k].eq)
      {
        assert args[i].eq in Ends(t);
        buf[args[i].eq] := '\0';
        i := i + 1;
      }
    case Redir(c, r) =>
      assert Ends(c) <= Ends(t) && r.file.eq in Ends(t);
      NulTerminate(buf, c);
      buf[r.file.eq] := '\0';
    case Pipe(l, r) =>
      assert Ends(l) <= Ends(t) && Ends(r) <= Ends(t);
      NulTerminate(buf, l);
      ghost var b1 := buf[..];
      NulTerminate(buf, r);
      EndedTwice(b0, b1, buf[..], Ends(l), Ends(r));
    case List(l, r) =>
      assert Ends(l) <= Ends(t) && Ends(r) <= Ends(t);
      NulTerminate(buf, l);
      ghost var b1 := buf[..];
      NulTerminate(buf, r);
      EndedTwice(b0, b1, buf[..], Ends(l), Ends(r));
    case Back(c) =>
      assert Ends(c) <= Ends(t);
      NulTerminate(buf, c);
  }

  // ---- The strings the pointers mean afterwards ----

  /** The C string that begins at q. */
  ghost function CString(b: seq<char>, q: nat): string
    decreases |b| - q
  {
    if q < |b| && b[q] != '\0' then [b[q]] + CString(b, q + 1) else []
  }

  lemma {:induction false} CStringIs(b: seq<char>, s: string, q: nat, eq: nat)
    requires q <= eq < |b| && eq <= |s| && b[eq] == '\0' && forall k :: q <= k < eq ==> b[k] == s[k] != '\0'
    ensures CString(b, q) == s[q..eq]
    decreases eq - q
  {
    if q < eq {
      CStringIs(b, s, q + 1, eq);
    }
  }

  /** The command as the rest of the shell sees it: each pointer is a C string. */
  ghost function ReadPointers(b: seq<char>, t: Cmd): Tree<string>
  {
    match t
    case Exec(args) => Exec(seq(|args|, k requires 0 <= k < |args| => CString(b, args[k].q)))
    case Redir(c, r) => Redir(ReadPointers(b, c), Target(CString(b, r.file.q), r.mode, r.fd))
    case Pipe(l, r) => Pipe(ReadPointers(b, l), ReadPointers(b, r))
    case List(l, r) => List(ReadPointers(b, l), ReadPointers(b, r))
    case Back(c) => Back(ReadPointers(b, c))
  }

  /** The NULs fall on the ends of words and never inside one. */
  lemma WordKept(s: Line, b: seq<char>, ends: set<nat>, w: Span)
    requires PlacedWord(s, w) && w.eq in ends && |b| > |s| && forall e :: e in ends && e < |s| ==> !IsWordChar(s[e])
    requires forall k {:trigger b[k]} :: 0 <= k < |s| ==> b[k] == if k in ends then '\0' else s[k]
    requires |s| in ends ==> b[|s|] == '\0'
    ensures CString(b, w.q) == ReadWord(s, w)
  {
    CStringIs(b, s, w.q, w.eq);
  }

  lemma {:induction false} PointersKept(s: Line, b: seq<char>, ends: set<nat>, t: Cmd)
    requires Placed(s, t) && Ends(t) <= ends && |b| > |s| && forall e :: e in ends && e < |s| ==> !IsWordChar(s[e])
    requires forall k {:trigger b[k]} :: 0 <= k < |s| ==> b[k] == if k in ends then '\0' else s[k]
    requires |s| in ends ==> b[|s|] == '\0'
    ensures ReadPointers(b, t) == Read(s, t)
  {
    match t
    case Exec(args) =>
      forall k | 0 <= k < |args| ensures CString(b, args[k].q) == ReadWord(s, args[k]) {
        assert args[k].eq in Ends(t);
        WordKept(s, b, ends, args[k]);
      }
      assert ReadPointers(b, t).args == ReadWords(s, args);
    case Redir(c, r) =>
      PointersKept(s, b, ends, c);
      WordKept(s, b, ends, r.file);
    case Pipe(l, r) =>
      PointersKept(s, b, ends, l);
      PointersKept(s, b, ends, r);
    case List(l, r) =>
      PointersKept(s, b, ends, l);
      PointersKept(s, b, ends, r);
    case Back(c) => PointersKept(s, b, ends, c);
  }

  /** The line of a buffer: what precedes the NUL at n. */
  ghost predicate IsLine(b: seq<char>, n: nat)
  {
    n < |b| && b[n] == '\0' && forall k :: 0 <= k < n ==> b[k] != '\0'
  }

  /** A line the parser fails on stands for no command. */
  lemma NoSentence(ts: seq<Token>)
    requires Command(ts).Fail?
    ensures forall t :: !IsSentence(ts, t)
  {
    forall t ensures !IsSentence(ts, t) {
      ParsesIff(ts, t);
    }
  }

  /** parsecmd, on the line of length n in buf: every pointer of the command ends up as the word it was parsed from. */
  method ParseCmd(buf: array<char>, n: nat) returns (r: Outcome<Cmd>)
    requires IsLine(buf[..], n)
    modifies buf
    ensures r.Panic? ==> Command(Tokens(old(buf[..n]), 0)) == Fail(r.error) && buf[..] == old(buf[..])
    ensures r.Panic? ==> forall t :: !IsSentence(Tokens(old(buf[..n]), 0), t)
    ensures r.Built? ==> Command(Tokens(old(buf[..n]), 0)) == Done(ReadPointers(buf[..], r.value), [])
    ensures r.Built? ==> IsSentence(Tokens(old(buf[..n]), 0), ReadPointers(buf[..], r.value))
  {
    var s: Line := buf[..n];
    var line := ParseLine(s, 0);
    if line.Panic? {
      NoSentence(Tokens(s, 0));
      return line;
    }
    var _, p := Peek(s, line.p, "");
    if p != |s| {
      NoSentence(Tokens(s, 0));
      return Panic(Leftovers);
    }
    ghost var b0 := buf[..];
    forall e | e in Ends(line.value) ensures e < buf.Length && (e < |s| ==> !IsWordChar(s[e])) {
      EndsPlaced(s, line.value, e);
    }
    NulTerminate(buf, line.value);
    forall k | 0 <= k < |s| ensures s[k] == b0[k] {
    }
    PointersKept(s, buf[..], Ends(line.value), line.value);
    ParsesIff(Tokens(s, 0), ReadPointers(buf[..], line.value));
    return line;
  }
}
