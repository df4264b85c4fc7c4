/**
The shell's parser (sh.c) on values: what parseline and the functions below it make of a sequence of tokens.
*/
module ShellGrammar {
  import opened ShellLex

  const MAXARGS := 10
  const O_RDONLY := 0
  const O_WRONLY_CREATE := 0x201  // O_WRONLY|O_CREATE

  /** A command, over words given as strings or as places in the line. */
  datatype Tree<W> =
    | Exec(args: seq<W>)
    | Redir(cmd: Tree<W>, to: Target<W>)
    | Pipe(left: Tree<W>, right: Tree<W>)
    | List(left: Tree<W>, right: Tree<W>)
    | Back(cmd: Tree<W>)

  datatype Target<W> = Target(file: W, mode: nat, fd: nat)

  /** The panics of the parser. */
  datatype Error = Syntax | MissingFile | MissingParen | TooManyArgs | Leftovers | NotBlock

  datatype Parsed = Fail(error: Error) | Done(tree: Tree<string>, rest: seq<Token>)

  datatype Targets = NoTargets(error: Error) | Found(targets: seq<Target<string>>, rest: seq<Token>)

  /** A command with its redirections, the first one innermost. */
  function Wrap<W>(t: Tree<W>, rs: seq<Target<W>>): Tree<W>
    decreases |rs|
  {
    if rs == [] then t else Wrap(Redir(t, rs[0]), rs[1..])
  }

  predicate Starts(ts: seq<Token>, c: char)
  {
    ts != [] && ts[0] == Sym(c)
  }

  predicate StartsRedir(ts: seq<Token>)
  {
    Starts(ts, '<') || Starts(ts, '>') || (ts != [] && ts[0] == Append)
  }

  /** What can follow a simple command. */
  predicate EndsExec(ts: seq<Token>)
  {
    ts == [] || Starts(ts, '|') || Starts(ts, ')') || Starts(ts, '&') || Starts(ts, ';')
  }

  /** Both '>' and '>>' write from the start of the file. */
  function TargetOf<W>(code: char, w: W): Target<W>
  {
    if code == '<' then Target(w, O_RDONLY, 0) else Target(w, O_WRONLY_CREATE, 1)
  }

  function Redirs(ts: seq<Token>): (r: Targets)
    ensures r.Found? ==> |r.rest| <= |ts| && !StartsRedir(r.rest)
    decreases |ts|
  {
    if !StartsRedir(ts) then Found([], ts)
    else if |ts| < 2 || !ts[1].Word? then NoTargets(MissingFile)
    else match Redirs(ts[2..])
      case NoTargets(e) => NoTargets(e)
      case Found(rs, rest) => Found([TargetOf(Code(ts[0]), ts[1].w)] + rs, rest)
  }

  /** The loop of parseexec, with the words and redirections collected so far. */
  function Args(args: seq<string>, rs: seq<Target<string>>, ts: seq<Token>): (r: Parsed)
    ensures r.Done? ==> |r.rest| <= |ts|
    decreases |ts|
  {
    if EndsExec(ts) then Done(Wrap(Exec(args), rs), ts)
    else if !ts[0].Word? then Fail(Syntax)
    else if |args| + 1 >= MAXARGS then Fail(TooManyArgs)
    else match Redirs(ts[1..])
      case NoTargets(e) => Fail(e)
      case Found(more, rest) => Args(args + [ts[0].w], rs + more, rest)
  }

  function ExecCmd(ts: seq<Token>): (r: Parsed)
    ensures r.Done? ==> |r.rest| <= |ts|
    decreases |ts|, 1
  {
    if Starts(ts, '(') then Block(ts)
    else match Redirs(ts)
      case NoTargets(e) => Fail(e)
      case Found(rs, rest) => Args([], rs, rest)
  }

  function Block(ts: seq<Token>): (r: Parsed)
    ensures r.Done? ==> |r.rest| <= |ts|
    decreases |ts|, 0
  {
    if !Starts(ts, '(') then Fail(NotBlock) else
    match LineCmd(ts[1..])
    case Fail(e) => Fail(e)
    case Done(t, rest) =>
      if !Starts(rest, ')') then Fail(MissingParen)
      else match Redirs(rest[1..])
        case NoTargets(e) => Fail(e)
        case Found(rs, rest') => Done(Wrap(t, rs), rest')
  }

  function PipeCmd(ts: seq<Token>): (r: Parsed)
    ensures r.Done? ==> |r.rest| <= |ts|
    decreases |ts|, 2
  {
    match ExecCmd(ts)
    case Fail(e) => Fail(e)
    case Done(t, rest) =>
      if !Starts(rest, '|') then Done(t, rest)
      else match PipeCmd(rest[1..])
        case Fail(e) => Fail(e)
        case Done(u, rest') => Done(Pipe(t, u), rest')
  }

  /** As many Backs as there are leading '&'. */
  function Ands(t: Tree<string>, ts: seq<Token>): (r: Parsed)
    ensures r.Done? && |r.rest| <= |ts| && !Starts(r.rest, '&')
    decreases |ts|
  {
    if Starts(ts, '&') then Ands(Back(t), ts[1..]) else Done(t, ts)
  }

  function LineCmd(ts: seq<Token>): (r: Parsed)
    ensures r.Done? ==> |r.rest| <= |ts|
    decreases |ts|, 3
  {
    match PipeCmd(ts)
    case Fail(e) => Fail(e)
    case Done(t, rest) =>
      var b := Ands(t, rest);
      if !Starts(b.rest, ';') then b
      else match LineCmd(b.rest[1..])
        case Fail(e) => Fail(e)
        case Done(u, rest') => Done(List(b.tree, u), rest')
  }

  /** parsecmd: the whole line must be used up. */
  function Command(ts: seq<Token>): Parsed
  {
    match LineCmd(ts)
    case Fail(e) => Fail(e)
    case Done(t, rest) => if rest == [] then Done(t, []) else Fail(Leftovers)
  }

  // ---- Trees ----

  predicate GoodWord(w: string)
  {
    |w| > 0 && forall k :: 0 <= k < |w| ==> IsWordChar(w[k])
  }

  predicate GoodTarget(r: Target<string>)
  {
    GoodWord(r.file) && ((r.mode == O_RDONLY && r.fd == 0) || (r.mode == O_WRONLY_CREATE && r.fd == 1))
  }

  /** The trees the parser can build: words of word characters, at most nine arguments. */
  predicate WellFormed(t: Tree<string>)
  {
    match t
    case Exec(args) => |args| < MAXARGS && forall k :: 0 <= k < |args| ==> GoodWord(args[k])
    case Redir(c, r) => GoodTarget(r) && WellFormed(c)
    case Pipe(l, r) => WellFormed(l) && WellFormed(r)
    case List(l, r) => WellFormed(l) && WellFormed(r)
    case Back(c) => WellFormed(c)
  }

  function Size(t: Tree<string>): (n: nat)
    ensures n > 0
  {
    match t
    case Exec(_) => 1
    case Redir(c, _) => 1 + Size(c)
    case Pipe(l, r) => 1 + Size(l) + Size(r)
    case List(l, r) => 1 + Size(l) + Size(r)
    case Back(c) => 1 + Size(c)
  }

  /** The command under a tree's outermost redirections. */
  function Core(t: Tree<string>): (c: Tree<string>)
    ensures Size(c) <= Size(t) && !c.Redir? && (WellFormed(t) ==> WellFormed(c))
  {
    if t.Redir? then Core(t.cmd) else t
  }

  function Outer(t: Tree<string>): (rs: seq<Target<string>>)
    ensures WellFormed(t) ==> forall k :: 0 <= k < |rs| ==> GoodTarget(rs[k])
  {
    if t.Redir? then Outer(t.cmd) + [t.to] else []
  }

  lemma {:induction false} WrapSnoc(t: Tree<string>, rs: seq<Target<string>>, r: Target<string>)
    ensures Wrap(t, rs + [r]) == Redir(Wrap(t, rs), r)
    decreases |rs|
  {
    if rs == [] {
      assert Wrap(Redir(t, r), []) == Redir(t, r);
      assert (rs + [r])[1..] == [];
    } else {
      assert (rs + [r])[1..] == rs[1..] + [r];
      WrapSnoc(Redir(t, rs[0]), rs[1..], r);
    }
  }

  lemma {:induction false} Rewrapped(t: Tree<string>)
    ensures Wrap(Core(t), Outer(t)) == t
  {
    if t.Redir? {
      Rewrapped(t.cmd);
      WrapSnoc(Core(t), Outer(t.cmd), t.to);
    }
  }
}
