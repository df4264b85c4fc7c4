/**
The shell's language, told apart from its parser: which sequences of tokens are a command line, and
for which command. The parser accepts exactly those, and builds that command.
*/
module ShellSentences {
  import opened ShellLex
  import opened ShellGrammar

  predicate IsSign(t: Token)
  {
    t == Sym('<') || t == Sym('>') || t == Append
  }

  /** '<' opens its file for reading as descriptor 0; '>' and '>>' create it and write it as descriptor 1. */
  predicate Sends(sign: Token, file: Token, to: Target<string>)
  {
    && file == Word(to.file)
    && (sign == Sym('<') ==> to.mode == 0 && to.fd == 0)
    && (sign == Sym('>') || sign == Append ==> to.mode == 0x201 && to.fd == 1)
  }

  /** In a line: these are the words that follow no redirection sign, and these the redirections, each in order. */
  ghost predicate Names(ts: seq<Token>, words: seq<string>, to: seq<Target<string>>)
    decreases |ts|
  {
    if ts == [] then words == [] && to == []
    else if IsSign(ts[0]) then |ts| >= 2 && to != [] && Sends(ts[0], ts[1], to[0]) && Names(ts[2..], words, to[1..])
    else if ts[0].Word? then words != [] && ts[0].w == words[0] && Names(ts[1..], words[1..], to)
    else Names(ts[1..], words, to)
  }

  /** Words and redirections only. */
  ghost predicate Mixes(ts: seq<Token>, words: seq<string>, to: seq<Target<string>>)
  {
    Names(ts, words, to) && forall k :: 0 <= k < |ts| ==> ts[k].Word? || IsSign(ts[k])
  }

  /** Words, at most nine, and redirections of them; the last redirection is the outermost. */
  ghost predicate IsSimple(ts: seq<Token>, t: Tree<string>)
  {
    Core(t).Exec? && |Core(t).args| < 10 && Mixes(ts, Core(t).args, Outer(t))
  }

  /** A line in parentheses, and redirections of it. */
  ghost predicate IsBlock(ts: seq<Token>, t: Tree<string>)
    decreases |ts|, 0
  {
    var n := |ts|;
    || (n >= 2 && ts[0] == Sym('(') && ts[n - 1] == Sym(')') && IsSentence(ts[1..n - 1], t))
    || (n >= 2 && t.Redir? && IsSign(ts[n - 2]) && Sends(ts[n - 2], ts[n - 1], t.to) && IsBlock(ts[..n - 2], t.cmd))
  }

  ghost predicate IsSingle(ts: seq<Token>, t: Tree<string>)
    decreases |ts|, 1
  {
    IsSimple(ts, t) || IsBlock(ts, t)
  }

  /** Simple commands and blocks, joined by '|', to the right. */
  ghost predicate IsPipeline(ts: seq<Token>, t: Tree<string>)
    decreases |ts|, 3
  {
    IsSingle(ts, t) || exists i :: 0 <= i < |ts| && PipedAt(ts, t, i)
  }

  ghost predicate PipedAt(ts: seq<Token>, t: Tree<string>, i: nat)
    requires i < |ts|
    decreases |ts|, 2
  {
    t.Pipe? && ts[i] == Sym('|') && IsSingle(ts[..i], t.left) && IsPipeline(ts[i + 1..], t.right)
  }

  /** A pipeline and any number of '&'. */
  ghost predicate IsJob(ts: seq<Token>, t: Tree<string>)
    decreases |ts|, 4
  {
    || IsPipeline(ts, t)
    || (t.Back? && ts != [] && ts[|ts| - 1] == Sym('&') && IsJob(ts[..|ts| - 1], t.cmd))
  }

  /** Jobs joined by ';', to the right. */
  ghost predicate IsSentence(ts: seq<Token>, t: Tree<string>)
    decreases |ts|, 6
  {
    IsJob(ts, t) || exists i :: 0 <= i < |ts| && ListedAt(ts, t, i)
  }

  ghost predicate ListedAt(ts: seq<Token>, t: Tree<string>, i: nat)
    requires i < |ts|
    decreases |ts|, 5
  {
    t.List? && ts[i] == Sym(';') && IsJob(ts[..i], t.left) && IsSentence(ts[i + 1..], t.right)
  }

  // ---- What the parser builds is what the line says ----

  /** The parser has used the first part of ts and left the rest. */
  ghost predicate Leaves(ts: seq<Token>, rest: seq<Token>)
  {
    |rest| <= |ts| && ts[|ts| - |rest|..] == rest
  }

  ghost function Used(ts: seq<Token>, rest: seq<Token>): seq<Token>
  {
    if |rest| <= |ts| then ts[..|ts| - |rest|] else []
  }

  lemma UsedNone(ts: seq<Token>)
    ensures Leaves(ts, ts) && Used(ts, ts) == []
  {
  }

  lemma UsedOne(ts: seq<Token>)
    requires ts != []
    ensures Leaves(ts, ts[1..]) && Used(ts, ts[1..]) == [ts[0]]
  {
  }

  lemma UsedThen(ts: seq<Token>, mid: seq<Token>, rest: seq<Token>)
    requires Leaves(ts, mid) && Leaves(mid, rest)
    ensures Leaves(ts, rest) && Used(ts, rest) == Used(ts, mid) + Used(mid, rest)
  {
    assert ts == Used(ts, mid) + mid && mid == Used(mid, rest) + rest;
  }

  lemma MixesSign(ts: seq<Token>, ws: seq<string>, rs: seq<Target<string>>)
    requires |ts| >= 2 && IsSign(ts[0]) && rs != [] && Sends(ts[0], ts[1], rs[0]) && Mixes(ts[2..], ws, rs[1..])
    ensures Mixes(ts, ws, rs)
  {
    assert ts == ts[..2] + ts[2..];
  }

  lemma {:induction false} RedirsSound(ts: seq<Token>)
    requires Redirs(ts).Found?
    ensures var r := Redirs(ts); Leaves(ts, r.rest) && Mixes(Used(ts, r.rest), [], r.targets)
    decreases |ts|
  {
    if StartsRedir(ts) {
      var r, more := Redirs(ts), Redirs(ts[2..]);
      RedirsSound(ts[2..]);
      assert r == Found([TargetOf(Code(ts[0]), ts[1].w)] + more.targets, more.rest);
      assert ts == ts[..2] + ts[2..];
      assert Used(ts, r.rest)[2..] == Used(ts[2..], r.rest) && r.targets[1..] == more.targets;
      hide Redirs;
      MixesSign(Used(ts, r.rest), [], r.targets);
    }
  }

  lemma NamesSign(ts: seq<Token>, ws: seq<string>, rs: seq<Target<string>>)
    requires |ts| >= 2 && IsSign(ts[0]) && rs != [] && Sends(ts[0], ts[1], rs[0]) && Names(ts[2..], ws, rs[1..])
    ensures Names(ts, ws, rs)
  {
  }

  lemma NamesWord(ts: seq<Token>, ws: seq<string>, rs: seq<Target<string>>)
    requires ts != [] && ws != [] && ts[0] == Word(ws[0]) && Names(ts[1..], ws[1..], rs)
    ensures Names(ts, ws, rs)
  {
  }

  lemma NamesSymbol(ts: seq<Token>, ws: seq<string>, rs: seq<Target<string>>)
    requires ts != [] && ts[0].Sym? && !IsSign(ts[0]) && Names(ts[1..], ws, rs)
    ensures Names(ts, ws, rs)
  {
  }

  /** One part of a line after another. */
  lemma {:induction false} NamesAfter(a: seq<Token>, ws: seq<string>, rs: seq<Target<string>>, b: seq<Token>,
                                      vs: seq<string>, qs: seq<Target<string>>)
    requires Names(a, ws, rs) && Names(b, vs, qs)
    ensures Names(a + b, ws + vs, rs + qs)
    decreases |a|
  {
    if a == [] {
      assert a + b == b && ws + vs == vs && rs + qs == qs;
    } else if IsSign(a[0]) {
      NamesAfter(a[2..], ws, rs[1..], b, vs, qs);
      hide Names;
      assert (a + b)[2..] == a[2..] + b && (rs + qs)[1..] == rs[1..] + qs;
      NamesSign(a + b, ws + vs, rs + qs);
    } else if a[0].Word? {
      NamesAfter(a[1..], ws[1..], rs, b, vs, qs);
      hide Names;
      assert (a + b)[1..] == a[1..] + b && (ws + vs)[1..] == ws[1..] + vs;
      NamesWord(a + b, ws + vs, rs + qs);
    } else {
      NamesAfter(a[1..], ws, rs, b, vs, qs);
      hide Names;
      assert (a + b)[1..] == a[1..] + b;
      NamesSymbol(a + b, ws + vs, rs + qs);
    }
  }

  lemma MixesAfter(a: seq<Token>, ws: seq<string>, rs: seq<Target<string>>, b: seq<Token>,
                   vs: seq<string>, qs: seq<Target<string>>)
    requires Mixes(a, ws, rs) && Mixes(b, vs, qs)
    ensures Mixes(a + b, ws + vs, rs + qs)
  {
    NamesAfter(a, ws, rs, b, vs, qs);
    hide Names;
  }

  lemma {:induction false} WrapParts(t: Tree<string>, rs: seq<Target<string>>)
    ensures Core(Wrap(t, rs)) == Core(t) && Outer(Wrap(t, rs)) == Outer(t) + rs
    decreases |rs|
  {
    if rs == [] {
      assert Outer(t) + rs == Outer(t);
    } else {
      WrapParts(Redir(t, rs[0]), rs[1..]);
      assert Outer(t) + [rs[0]] + rs[1..] == Outer(t) + rs;
    }
  }

  lemma OneWord(w: string)
    ensures Mixes([Word(w)], [w], [])
  {
    var ts := [Word(w)];
    assert ts[1..] == [];
  }

  /** Having read `seen`, then a word and its redirections. */
  lemma SeenMore(seen: seq<Token>, args: seq<string>, rs: seq<Target<string>>, ts: seq<Token>, rest: seq<Token>,
                 more: seq<Target<string>>)
    requires Mixes(seen, args, rs) && ts != [] && ts[0].Word? && Leaves(ts[1..], rest)
    requires Mixes(Used(ts[1..], rest), [], more)
    ensures Leaves(ts, rest) && Mixes(seen + Used(ts, rest), args + [ts[0].w], rs + more)
  {
    var w := ts[0].w;
    UsedOne(ts);
    UsedThen(ts, ts[1..], rest);
    OneWord(w);
    var mid := Used(ts[1..], rest);
    MixesAfter([ts[0]], [w], [], mid, [], more);
    hide *;
    assert [w] + [] == [w] && [] + more == more;
    MixesAfter(seen, args, rs, [ts[0]] + mid, [w], more);
  }

  lemma ArgsEnd(args: seq<string>, rs: seq<Target<string>>, ts: seq<Token>, seen: seq<Token>)
    requires Mixes(seen, args, rs) && |args| < MAXARGS
    ensures Leaves(ts, ts) && IsSimple(seen + Used(ts, ts), Wrap(Exec(args), rs))
  {
    WrapParts(Exec(args), rs);
    assert Outer(Exec(args)) + rs == rs && seen + Used(ts, ts) == seen;
  }

  /** Having read `seen`, parseexec goes on with ts. */
  lemma {:induction false} ArgsSound(args: seq<string>, rs: seq<Target<string>>, ts: seq<Token>, seen: seq<Token>)
    requires Mixes(seen, args, rs) && |args| < MAXARGS && Args(args, rs, ts).Done?
    ensures var r := Args(args, rs, ts); Leaves(ts, r.rest) && IsSimple(seen + Used(ts, r.rest), r.tree)
    decreases |ts|
  {
    hide Mixes;
    hide IsSimple;
    hide Leaves;
    hide Used;
    hide Wrap;
    hide Redirs;
    if EndsExec(ts) {
      ArgsEnd(args, rs, ts, seen);
    } else {
      var more := Redirs(ts[1..]);
      var r := Args(args + [ts[0].w], rs + more.targets, more.rest);
      assert r == Args(args, rs, ts);
      RedirsSound(ts[1..]);
      SeenMore(seen, args, rs, ts, more.rest, more.targets);
      ArgsSound(args + [ts[0].w], rs + more.targets, more.rest, seen + Used(ts, more.rest));
      UsedThen(ts, more.rest, r.rest);
      assert seen + Used(ts, more.rest) + Used(more.rest, r.rest) == seen + Used(ts, r.rest);
    }
  }

  /** Redirections after a block. */
  lemma {:induction false} BlockRedirs(a: seq<Token>, t: Tree<string>, b: seq<Token>, rs: seq<Target<string>>)
    requires IsBlock(a, t) && Mixes(b, [], rs)
    ensures IsBlock(a + b, Wrap(t, rs))
    decreases |b|
  {
    if b == [] {
      assert a + b == a;
    } else {
      var a' := a + b[..2];
      assert a'[..|a'| - 2] == a && b == b[..2] + b[2..];
      assert IsBlock(a', Redir(t, rs[0]));
      BlockRedirs(a', Redir(t, rs[0]), b[2..], rs[1..]);
      assert a' + b[2..] == a + b;
    }
  }

  /** The parentheses around a line. */
  lemma Enclosed(ts: seq<Token>, close: seq<Token>, t: Tree<string>)
    requires Starts(ts, '(') && Leaves(ts[1..], close) && Starts(close, ')') && IsSentence(Used(ts[1..], close), t)
    ensures Leaves(ts, close[1..]) && IsBlock(Used(ts, close[1..]), t)
  {
    UsedOne(ts);
    UsedThen(ts, ts[1..], close);
    UsedOne(close);
    UsedThen(ts, close, close[1..]);
    var block, inner := Used(ts, close[1..]), Used(ts[1..], close);
    assert block == [ts[0]] + inner + [close[0]];
    hide IsSentence;
    assert block[1..|block| - 1] == inner;
  }

  lemma {:induction false} BlockSound(ts: seq<Token>)
    requires Block(ts).Done?
    ensures var r := Block(ts); Leaves(ts, r.rest) && IsBlock(Used(ts, r.rest), r.tree)
    decreases |ts|, 0
  {
    hide IsSentence;
    hide IsBlock;
    hide Leaves;
    hide Used;
    hide Mixes;
    hide Redirs;
    hide LineCmd;
    hide Wrap;
    var line := LineCmd(ts[1..]);
    var after := line.rest[1..];
    var found := Redirs(after);
    assert Block(ts) == Done(Wrap(line.tree, found.targets), found.rest);
    hide Block;
    SentenceSound(ts[1..]);
    Enclosed(ts, line.rest, line.tree);
    RedirsSound(after);
    BlockRedirs(Used(ts, after), line.tree, Used(after, found.rest), found.targets);
    UsedThen(ts, after, found.rest);
  }

  lemma {:induction false} SingleSound(ts: seq<Token>)
    requires ExecCmd(ts).Done?
    ensures var r := ExecCmd(ts); Leaves(ts, r.rest) && IsSingle(Used(ts, r.rest), r.tree)
    decreases |ts|, 1
  {
    hide IsBlock;
    hide IsSimple;
    hide Leaves;
    hide Used;
    hide Mixes;
    hide Redirs;
    hide Args;
    hide Block;
    if Starts(ts, '(') {
      BlockSound(ts);
    } else {
      var first := Redirs(ts);
      RedirsSound(ts);
      ArgsSound([], first.targets, first.rest, Used(ts, first.rest));
      UsedThen(ts, first.rest, ExecCmd(ts).rest);
    }
  }

  /** A separator between two parts. */
  lemma Between(ts: seq<Token>, mid: seq<Token>, rest: seq<Token>) returns (i: nat)
    requires Leaves(ts, mid) && mid != [] && Leaves(mid[1..], rest)
    ensures Leaves(ts, rest) && i < |Used(ts, rest)| && Used(ts, rest)[i] == mid[0]
    ensures Used(ts, rest)[..i] == Used(ts, mid) && Used(ts, rest)[i + 1..] == Used(mid[1..], rest)
  {
    UsedOne(mid);
    UsedThen(mid, mid[1..], rest);
    UsedThen(ts, mid, rest);
    i := |Used(ts, mid)|;
    assert Used(ts, rest) == Used(ts, mid) + ([mid[0]] + Used(mid[1..], rest));
  }

  lemma {:induction false} PipelineSound(ts: seq<Token>)
    requires PipeCmd(ts).Done?
    ensures var r := PipeCmd(ts); Leaves(ts, r.rest) && IsPipeline(Used(ts, r.rest), r.tree)
    decreases |ts|, 2
  {
    hide IsSingle;
    hide Leaves;
    hide Used;
    hide ExecCmd;
    var left := ExecCmd(ts);
    SingleSound(ts);
    if Starts(left.rest, '|') {
      var r := PipeCmd(ts);
      PipelineSound(left.rest[1..]);
      var i := Between(ts, left.rest, r.rest);
      assert PipedAt(Used(ts, r.rest), r.tree, i);
    }
  }

  lemma {:induction false} AndsSound(t: Tree<string>, ts: seq<Token>, seen: seq<Token>)
    requires IsJob(seen, t)
    ensures var r := Ands(t, ts); Leaves(ts, r.rest) && IsJob(seen + Used(ts, r.rest), r.tree)
    decreases |ts|
  {
    hide IsPipeline;
    hide Leaves;
    hide Used;
    var r := Ands(t, ts);
    if Starts(ts, '&') {
      var more := seen + [ts[0]];
      assert more[..|more| - 1] == seen;
      AndsSound(Back(t), ts[1..], more);
      UsedOne(ts);
      UsedThen(ts, ts[1..], r.rest);
      assert more + Used(ts[1..], r.rest) == seen + Used(ts, r.rest);
    } else {
      UsedNone(ts);
      assert seen + [] == seen;
    }
  }

  lemma {:induction false} SentenceSound(ts: seq<Token>)
    requires LineCmd(ts).Done?
    ensures var r := LineCmd(ts); Leaves(ts, r.rest) && IsSentence(Used(ts, r.rest), r.tree)
    decreases |ts|, 3
  {
    hide IsPipeline;
    hide Leaves;
    hide Used;
    hide PipeCmd;
    hide Ands;
    var r, first := LineCmd(ts), PipeCmd(ts);
    PipelineSound(ts);
    var b := Ands(first.tree, first.rest);
    assert IsJob(Used(ts, first.rest), first.tree);
    hide IsJob;
    AndsSound(first.tree, first.rest, Used(ts, first.rest));
    UsedThen(ts, first.rest, b.rest);
    if Starts(b.rest, ';') {
      SentenceSound(b.rest[1..]);
      var i := Between(ts, b.rest, r.rest);
      assert ListedAt(Used(ts, r.rest), r.tree, i);
    }
  }

  // ---- Every line of the language is parsed ----

  lemma MixesPair(ts: seq<Token>, ws: seq<string>, rs: seq<Target<string>>)
    requires Mixes(ts, ws, rs) && StartsRedir(ts)
    ensures |ts| >= 2 && rs != [] && ts[1].Word? && TargetOf(Code(ts[0]), ts[1].w) == rs[0]
    ensures Mixes(ts[2..], ws, rs[1..])
  {
  }

  lemma MixesFront(ts: seq<Token>, ws: seq<string>, rs: seq<Target<string>>)
    requires Mixes(ts, ws, rs) && ts != [] && !StartsRedir(ts)
    ensures ws != [] && ts[0] == Word(ws[0]) && Mixes(ts[1..], ws[1..], rs)
  {
  }

  lemma RedirsFront(ts: seq<Token>, rest: seq<Token>, rs: seq<Target<string>>, left: seq<Token>)
    requires StartsRedir(ts) && |ts| >= 2 && ts[1].Word? && Redirs(ts[2..] + rest) == Found(rs, left)
    ensures Redirs(ts + rest) == Found([TargetOf(Code(ts[0]), ts[1].w)] + rs, left)
  {
    assert (ts + rest)[2..] == ts[2..] + rest;
  }

  lemma RedirsNone(ts: seq<Token>, rest: seq<Token>)
    requires !StartsRedir(ts) && EndsExec(rest)
    ensures Redirs(ts + rest) == Found([], ts + rest)
  {
    assert ts == [] ==> ts + rest == rest;
  }

  /** The redirections at the front of a mixture. */
  lemma {:induction false} RedirsTaken(ts: seq<Token>, ws: seq<string>, rs: seq<Target<string>>, rest: seq<Token>)
    returns (k: nat, left: seq<Token>)
    requires Mixes(ts, ws, rs) && EndsExec(rest)
    ensures k <= |rs| && |left| <= |ts| && !StartsRedir(left) && Mixes(left, ws, rs[k..])
    ensures Redirs(ts + rest) == Found(rs[..k], left + rest)
    decreases |ts|
  {
    hide *;
    if StartsRedir(ts) {
      MixesPair(ts, ws, rs);
      var k', left' := RedirsTaken(ts[2..], ws, rs[1..], rest);
      k, left := k' + 1, left';
      RedirsFront(ts, rest, rs[1..][..k'], left + rest);
      assert rs[1..][k'..] == rs[k..] && rs[..k] == [rs[0]] + rs[1..][..k'];
    } else {
      k, left := 0, ts;
      RedirsNone(ts, rest);
      assert rs[0..] == rs && rs[..0] == [];
    }
  }

  /** One turn of the loop of parseexec. */
  lemma OneTaken(args: seq<string>, done: seq<Target<string>>, w: string, ts: seq<Token>, rs: seq<Target<string>>,
                 rest: seq<Token>)
    requires |args| + 1 < MAXARGS && Redirs(ts) == Found(rs, rest)
    ensures Args(args, done, [Word(w)] + ts) == Args(args + [w], done + rs, rest)
  {
    var all := [Word(w)] + ts;
    assert all[1..] == ts;
  }

  lemma Regroup<T>(a: seq<T>, b: seq<T>, k: nat)
    requires k <= |b|
    ensures a + b[..k] + b[k..] == a + b
  {
  }

  lemma ArgsNone(args: seq<string>, done: seq<Target<string>>, ws: seq<string>, rs: seq<Target<string>>,
                 rest: seq<Token>)
    requires Mixes([], ws, rs) && EndsExec(rest)
    ensures Args(args, done, rest) == Done(Wrap(Exec(args + ws), done + rs), rest)
  {
    assert args + ws == args && done + rs == done;
  }

  lemma {:induction false} ArgsTaken(args: seq<string>, done: seq<Target<string>>, ts: seq<Token>, ws: seq<string>,
                                     rs: seq<Target<string>>, rest: seq<Token>)
    requires Mixes(ts, ws, rs) && !StartsRedir(ts) && |args| + |ws| < MAXARGS && EndsExec(rest)
    ensures Args(args, done, ts + rest) == Done(Wrap(Exec(args + ws), done + rs), rest)
    decreases |ts|
  {
    hide *;
    if ts == [] {
      ArgsNone(args, done, ws, rs, rest);
      assert ts + rest == rest;
    } else {
      MixesFront(ts, ws, rs);
      var k, left := RedirsTaken(ts[1..], ws[1..], rs, rest);
      OneTaken(args, done, ws[0], ts[1..] + rest, rs[..k], left + rest);
      assert [Word(ws[0])] + (ts[1..] + rest) == ts + rest;
      ArgsTaken(args + [ws[0]], done + rs[..k], left, ws[1..], rs[k..], rest);
      Regroup(args, ws, 1);
      Regroup(done, rs, k);
      assert ws[..1] == [ws[0]];
    }
  }

  lemma SimpleComplete(ts: seq<Token>, t: Tree<string>, rest: seq<Token>)
    requires IsSimple(ts, t) && EndsExec(rest)
    ensures ExecCmd(ts + rest) == Done(t, rest)
  {
    var args, rs := Core(t).args, Outer(t);
    assert !Starts(ts + rest, '(');
    Rewrapped(t);
    hide Mixes;
    hide Redirs;
    hide Args;
    hide Core;
    hide Outer;
    hide Wrap;
    var k, left := RedirsTaken(ts, args, rs, rest);
    ArgsTaken([], rs[..k], left, args, rs[k..], rest);
    assert [] + args == args && rs[..k] + rs[k..] == rs;
  }

  /** A block is a line in parentheses, then redirections. */
  lemma {:induction false} BlockParts(ts: seq<Token>, t: Tree<string>)
    returns (line: seq<Token>, c: Tree<string>, after: seq<Token>, rs: seq<Target<string>>)
    requires IsBlock(ts, t)
    ensures ts == [Sym('(')] + line + [Sym(')')] + after && |line| < |ts|
    ensures IsSentence(line, c) && Mixes(after, [], rs) && Wrap(c, rs) == t
    decreases |ts|
  {
    var n := |ts|;
    hide IsSentence;
    if ts[0] == Sym('(') && ts[n - 1] == Sym(')') && IsSentence(ts[1..n - 1], t) {
      line, c, after, rs := ts[1..n - 1], t, [], [];
    } else {
      line, c, after, rs := BlockParts(ts[..n - 2], t.cmd);
      WrapSnoc(c, rs, t.to);
      MixesSnoc(after, rs, ts[n - 2..], t.to);
      after, rs := after + ts[n - 2..], rs + [t.to];
    }
  }

  lemma MixesSnoc(ts: seq<Token>, rs: seq<Target<string>>, pair: seq<Token>, to: Target<string>)
    requires Mixes(ts, [], rs) && |pair| == 2 && IsSign(pair[0]) && Sends(pair[0], pair[1], to)
    ensures Mixes(ts + pair, [], rs + [to])
  {
    var none: seq<string> := [];
    assert Mixes(pair, none, [to]);
    MixesAfter(ts, none, rs, pair, none, [to]);
    assert none + none == none;
  }

  lemma BlockComplete(ts: seq<Token>, t: Tree<string>, rest: seq<Token>)
    requires IsBlock(ts, t) && EndsExec(rest)
    ensures ExecCmd(ts + rest) == Done(t, rest)
    decreases |ts|, 0
  {
    var line, c, after, rs := BlockParts(ts, t);
    var close := [Sym(')')] + (after + rest);
    assert ts + rest == [Sym('(')] + (line + close) && Starts(close, ')');
    hide *;
    SentenceComplete(line, c, close);
    EnclosedRead(line, c, after, rs, rest);
  }

  lemma EnclosedRead(line: seq<Token>, c: Tree<string>, after: seq<Token>, rs: seq<Target<string>>, rest: seq<Token>)
    requires LineCmd(line + ([Sym(')')] + (after + rest))) == Done(c, [Sym(')')] + (after + rest))
    requires Mixes(after, [], rs) && EndsExec(rest)
    ensures ExecCmd([Sym('(')] + (line + ([Sym(')')] + (after + rest)))) == Done(Wrap(c, rs), rest)
  {
    var close := [Sym(')')] + (after + rest);
    var ts := [Sym('(')] + (line + close);
    assert ts[1..] == line + close && close[1..] == after + rest;
    hide LineCmd;
    hide Redirs;
    hide Wrap;
    var k, left := RedirsTaken(after, [], rs, rest);
    assert left == [] && rs[..k] == rs && left + rest == rest;
  }

  lemma SingleComplete(ts: seq<Token>, t: Tree<string>, rest: seq<Token>)
    requires IsSingle(ts, t) && EndsExec(rest)
    ensures ExecCmd(ts + rest) == Done(t, rest)
    decreases |ts|, 1
  {
    hide IsSimple;
    hide IsBlock;
    hide ExecCmd;
    if IsSimple(ts, t) {
      SimpleComplete(ts, t, rest);
    } else {
      BlockComplete(ts, t, rest);
    }
  }

  lemma PipeJoin(ts: seq<Token>, l: Tree<string>, after: seq<Token>, r: Tree<string>, rest: seq<Token>)
    requires ExecCmd(ts) == Done(l, [Sym('|')] + after) && PipeCmd(after) == Done(r, rest)
    ensures PipeCmd(ts) == Done(Pipe(l, r), rest)
  {
    assert ([Sym('|')] + after)[1..] == after;
  }

  lemma PipelineComplete(ts: seq<Token>, t: Tree<string>, rest: seq<Token>)
    requires IsPipeline(ts, t) && EndsExec(rest) && !Starts(rest, '|')
    ensures PipeCmd(ts + rest) == Done(t, rest)
    decreases |ts|, 2
  {
    hide IsSingle;
    hide ExecCmd;
    if IsSingle(ts, t) {
      SingleComplete(ts, t, rest);
    } else {
      var i :| 0 <= i < |ts| && PipedAt(ts, t, i);
      var left, right := ts[..i], ts[i + 1..];
      assert ts + rest == left + ([Sym('|')] + (right + rest));
      SingleComplete(left, t.left, [Sym('|')] + (right + rest));
      PipelineComplete(right, t.right, rest);
      PipeJoin(ts + rest, t.left, right + rest, t.right, rest);
    }
  }

  /** n times '&'. */
  function Amps(n: nat): (ts: seq<Token>)
  {
    if n == 0 then [] else [Sym('&')] + Amps(n - 1)
  }

  function Backs(t: Tree<string>, n: nat): Tree<string>
    decreases n
  {
    if n == 0 then t else Backs(Back(t), n - 1)
  }

  lemma {:induction false} BacksOut(t: Tree<string>, n: nat)
    ensures Backs(t, n + 1) == Back(Backs(t, n))
    decreases n
  {
    if n > 0 {
      BacksOut(Back(t), n - 1);
    }
  }

  lemma {:induction false} AndsRead(t: Tree<string>, n: nat, rest: seq<Token>)
    requires !Starts(rest, '&')
    ensures Ands(t, Amps(n) + rest) == Done(Backs(t, n), rest)
    decreases n
  {
    if n == 0 {
      assert Amps(0) + rest == rest;
    } else {
      assert (Amps(n) + rest)[1..] == Amps(n - 1) + rest;
      AndsRead(Back(t), n - 1, rest);
    }
  }

  lemma {:induction false} JobParts(ts: seq<Token>, t: Tree<string>) returns (p: seq<Token>, c: Tree<string>, n: nat)
    requires IsJob(ts, t)
    ensures IsPipeline(p, c) && t == Backs(c, n) && |p| <= |ts| && ts == p + Amps(n)
    decreases |ts|
  {
    hide IsPipeline;
    if IsPipeline(ts, t) {
      p, c, n := ts, t, 0;
      assert ts == p + Amps(0);
    } else {
      var last := |ts| - 1;
      p, c, n := JobParts(ts[..last], t.cmd);
      BacksOut(c, n);
      AmpsSnoc(n);
      n := n + 1;
      assert ts == ts[..last] + [Sym('&')];
    }
  }

  lemma {:induction false} AmpsSnoc(n: nat)
    ensures Amps(n + 1) == Amps(n) + [Sym('&')]
  {
    if n > 0 {
      AmpsSnoc(n - 1);
    }
  }

  lemma JobComplete(ts: seq<Token>, t: Tree<string>, rest: seq<Token>)
    requires IsJob(ts, t) && (rest == [] || Starts(rest, ')') || Starts(rest, ';'))
    ensures var r := PipeCmd(ts + rest); r.Done? && Ands(r.tree, r.rest) == Done(t, rest)
    decreases |ts|, 3
  {
    var p, c, n := JobParts(ts, t);
    assert ts + rest == p + (Amps(n) + rest);
    assert n == 0 ==> Amps(n) + rest == rest;
    hide PipeCmd;
    PipelineComplete(p, c, Amps(n) + rest);
    AndsRead(c, n, rest);
  }

  lemma ListJoin(ts: seq<Token>, l: Tree<string>, after: seq<Token>, r: Tree<string>, rest: seq<Token>)
    requires PipeCmd(ts).Done? && Ands(PipeCmd(ts).tree, PipeCmd(ts).rest) == Done(l, [Sym(';')] + after)
    requires LineCmd(after) == Done(r, rest)
    ensures LineCmd(ts) == Done(List(l, r), rest)
  {
    assert ([Sym(';')] + after)[1..] == after;
  }

  lemma SentenceComplete(ts: seq<Token>, t: Tree<string>, rest: seq<Token>)
    requires IsSentence(ts, t) && (rest == [] || Starts(rest, ')'))
    ensures LineCmd(ts + rest) == Done(t, rest)
    decreases |ts|, 4
  {
    hide IsJob;
    hide PipeCmd;
    hide Ands;
    if IsJob(ts, t) {
      JobComplete(ts, t, rest);
    } else {
      hide LineCmd;
      var i :| 0 <= i < |ts| && ListedAt(ts, t, i);
      var left, right := ts[..i], ts[i + 1..];
      assert ts + rest == left + ([Sym(';')] + (right + rest));
      JobComplete(left, t.left, [Sym(';')] + (right + rest));
      SentenceComplete(right, t.right, rest);
      ListJoin(ts + rest, t.left, right + rest, t.right, rest);
    }
  }

  /** The parser accepts exactly the lines of the language, and builds the command they stand for. */
  lemma ParsesIff(ts: seq<Token>, t: Tree<string>)
    ensures Command(ts) == Done(t, []) <==> IsSentence(ts, t)
  {
    hide IsSentence;
    if Command(ts) == Done(t, []) {
      SentenceSound(ts);
      assert Used(ts, []) == ts;
    }
    if IsSentence(ts, t) {
      SentenceComplete(ts, t, []);
      assert ts + [] == ts;
    }
  }

  // ---- Nothing is lost or moved ----

  /** The words of a command, and its redirections, as they stand in it from left to right. */
  function Words(t: Tree<string>): seq<string>
  {
    match t
    case Exec(args) => args
    case Redir(c, _) => Words(c)
    case Pipe(l, r) => Words(l) + Words(r)
    case List(l, r) => Words(l) + Words(r)
    case Back(c) => Words(c)
  }

  function Dests(t: Tree<string>): seq<Target<string>>
  {
    match t
    case Exec(_) => []
    case Redir(c, to) => Dests(c) + [to]
    case Pipe(l, r) => Dests(l) + Dests(r)
    case List(l, r) => Dests(l) + Dests(r)
    case Back(c) => Dests(c)
  }

  /** A symbol that is no redirection sign names nothing. */
  lemma NamesAround(a: seq<Token>, ws: seq<string>, rs: seq<Target<string>>, c: Token, b: seq<Token>,
                    vs: seq<string>, qs: seq<Target<string>>)
    requires Names(a, ws, rs) && Names(b, vs, qs) && c.Sym? && !IsSign(c)
    ensures Names(a + [c] + b, ws + vs, rs + qs)
  {
    assert ([c] + b)[1..] == b;
    NamesAfter(a, ws, rs, [c] + b, vs, qs);
    assert a + [c] + b == a + ([c] + b);
  }

  lemma {:induction false} PartsNamed(t: Tree<string>)
    ensures Words(t) == Words(Core(t)) && Dests(t) == Dests(Core(t)) + Outer(t)
  {
    if t.Redir? {
      PartsNamed(t.cmd);
      assert Dests(Core(t)) + Outer(t.cmd) + [t.to] == Dests(Core(t)) + Outer(t);
    } else {
      assert Dests(t) + [] == Dests(t);
    }
  }

  lemma SimpleNames(ts: seq<Token>, t: Tree<string>)
    requires IsSimple(ts, t)
    ensures Names(ts, Words(t), Dests(t))
  {
    PartsNamed(t);
    assert [] + Outer(t) == Outer(t);
  }

  lemma Parenthesised(line: seq<Token>, ws: seq<string>, rs: seq<Target<string>>)
    requires Names(line, ws, rs)
    ensures Names([Sym('(')] + line + [Sym(')')], ws, rs)
  {
    NothingNamed();
    var ts := [Sym('(')] + line;
    assert ts[1..] == line;
    NamesSymbol(ts, ws, rs);
    hide Names;
    NamesAround(ts, ws, rs, Sym(')'), [], [], []);
    assert ts + [Sym(')')] + [] == [Sym('(')] + line + [Sym(')')] && ws + [] == ws && rs + [] == rs;
  }

  lemma BlockNames(ts: seq<Token>, t: Tree<string>)
    requires IsBlock(ts, t)
    ensures Names(ts, Words(t), Dests(t))
    decreases |ts|, 0
  {
    var n := |ts|;
    hide IsSentence;
    hide Names;
    if ts[0] == Sym('(') && ts[n - 1] == Sym(')') && IsSentence(ts[1..n - 1], t) {
      SentenceNames(ts[1..n - 1], t);
      Parenthesised(ts[1..n - 1], Words(t), Dests(t));
      assert ts == [Sym('(')] + ts[1..n - 1] + [Sym(')')];
    } else {
      var front, pair := ts[..n - 2], ts[n - 2..];
      BlockNames(front, t.cmd);
      PairNames(pair, t.to);
      NamesAfter(front, Words(t.cmd), Dests(t.cmd), pair, [], [t.to]);
      assert ts == front + pair && Words(t.cmd) + [] == Words(t);
    }
  }

  lemma NothingNamed()
    ensures Names([], [], [])
  {
  }

  lemma PairNames(pair: seq<Token>, to: Target<string>)
    requires |pair| == 2 && IsSign(pair[0]) && Sends(pair[0], pair[1], to)
    ensures Names(pair, [], [to])
  {
  }

  lemma SingleNames(ts: seq<Token>, t: Tree<string>)
    requires IsSingle(ts, t)
    ensures Names(ts, Words(t), Dests(t))
    decreases |ts|, 1
  {
    hide Names;
    hide IsSimple;
    hide IsBlock;
    if IsSimple(ts, t) {
      SimpleNames(ts, t);
    } else {
      BlockNames(ts, t);
    }
  }

  lemma PipelineNames(ts: seq<Token>, t: Tree<string>)
    requires IsPipeline(ts, t)
    ensures Names(ts, Words(t), Dests(t))
    decreases |ts|, 2
  {
    hide Names;
    hide IsSingle;
    if IsSingle(ts, t) {
      SingleNames(ts, t);
    } else {
      var i :| 0 <= i < |ts| && PipedAt(ts, t, i);
      SingleNames(ts[..i], t.left);
      PipelineNames(ts[i + 1..], t.right);
      NamesAround(ts[..i], Words(t.left), Dests(t.left), ts[i], ts[i + 1..], Words(t.right), Dests(t.right));
      assert ts == ts[..i] + [ts[i]] + ts[i + 1..];
    }
  }

  lemma {:induction false} JobNames(ts: seq<Token>, t: Tree<string>)
    requires IsJob(ts, t)
    ensures Names(ts, Words(t), Dests(t))
    decreases |ts|, 3
  {
    hide Names;
    hide IsPipeline;
    if IsPipeline(ts, t) {
      PipelineNames(ts, t);
    } else {
      var front := ts[..|ts| - 1];
      JobNames(front, t.cmd);
      NothingNamed();
      NamesAround(front, Words(t.cmd), Dests(t.cmd), Sym('&'), [], [], []);
      assert ts == front + [Sym('&')] + [] && Words(t.cmd) + [] == Words(t) && Dests(t.cmd) + [] == Dests(t);
    }
  }

  /**
  The words of the command that a line stands for are the words of the line that follow no redirection sign, in
  their order; its redirections are those of the line, in their order.
  */
  lemma SentenceNames(ts: seq<Token>, t: Tree<string>)
    requires IsSentence(ts, t)
    ensures Names(ts, Words(t), Dests(t))
    decreases |ts|, 4
  {
    hide Names;
    hide IsJob;
    if IsJob(ts, t) {
      JobNames(ts, t);
    } else {
      var i :| 0 <= i < |ts| && ListedAt(ts, t, i);
      JobNames(ts[..i], t.left);
      SentenceNames(ts[i + 1..], t.right);
      NamesAround(ts[..i], Words(t.left), Dests(t.left), ts[i], ts[i + 1..], Words(t.right), Dests(t.right));
      assert ts == ts[..i] + [ts[i]] + ts[i + 1..];
    }
  }
}
