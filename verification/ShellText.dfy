/**
Command lines as text: how every command tree is written down, and that the parser gives it back.
*/
module ShellText {
  import opened ShellLex
  import opened ShellGrammar
  import opened ShellSentences

  function WordTokens(ws: seq<string>): seq<Token>
  {
    seq(|ws|, i requires 0 <= i < |ws| => Word(ws[i]))
  }

  function TargetTokens(rs: seq<Target<string>>): seq<Token>
    decreases |rs|
  {
    if rs == [] then []
    else [Sym(if rs[0].fd == 0 then '<' else '>'), Word(rs[0].file)] + TargetTokens(rs[1..])
  }

  /** The command under a tree's outermost Backs. */
  function Base(t: Tree<string>): (b: Tree<string>)
    ensures !b.Back? && Size(b) <= Size(t) && (t.Back? ==> Size(b) < Size(t)) && (WellFormed(t) ==> WellFormed(b))
  {
    if t.Back? then Base(t.cmd) else t
  }

  function Depth(t: Tree<string>): nat
  {
    if t.Back? then Depth(t.cmd) + 1 else 0
  }

  /** Written where a single command is wanted: in parentheses unless it is a simple command. */
  function ExecTokens(t: Tree<string>): (ts: seq<Token>)
    decreases Size(t), if t.Pipe? || t.List? || t.Back? then 5 else 1
  {
    var c := Core(t);
    (if c.Exec? then WordTokens(c.args) else [Sym('(')] + LineTokens(c) + [Sym(')')]) + TargetTokens(Outer(t))
  }

  /** Written where a pipeline is wanted. */
  function PipeTokens(t: Tree<string>): (ts: seq<Token>)
    decreases Size(t), if t.List? || t.Back? then 6 else 2
  {
    if t.Pipe? then ExecTokens(t.left) + [Sym('|')] + PipeTokens(t.right) else ExecTokens(t)
  }

  /** Written where a pipeline with any number of '&' is wanted. */
  function BackTokens(t: Tree<string>): (ts: seq<Token>)
    decreases Size(t), if t.List? then 7 else 3
  {
    PipeTokens(Base(t)) + Amps(Depth(t))
  }

  /** Written as a whole line. */
  function LineTokens(t: Tree<string>): (ts: seq<Token>)
    decreases Size(t), 4
  {
    if t.List? then BackTokens(t.left) + [Sym(';')] + LineTokens(t.right) else BackTokens(t)
  }

  lemma {:induction false} Rebacked(t: Tree<string>)
    ensures Backs(Base(t), Depth(t)) == t
  {
    if t.Back? {
      Rebacked(t.cmd);
      BacksOut(Base(t), Depth(t.cmd));
    }
  }

  // ---- What is written is a line of the language ----

  lemma {:induction false} TargetsMix(rs: seq<Target<string>>)
    requires forall k :: 0 <= k < |rs| ==> GoodTarget(rs[k])
    ensures Mixes(TargetTokens(rs), [], rs)
    decreases |rs|
  {
    if rs != [] {
      TargetsMix(rs[1..]);
      assert TargetTokens(rs)[2..] == TargetTokens(rs[1..]);
    }
  }

  lemma {:induction false} WordsMix(ws: seq<string>)
    ensures Mixes(WordTokens(ws), ws, [])
    decreases |ws|
  {
    if ws != [] {
      WordsMix(ws[1..]);
      assert WordTokens(ws)[1..] == WordTokens(ws[1..]);
    }
  }

  lemma ExecSays(t: Tree<string>)
    requires WellFormed(t)
    ensures IsSingle(ExecTokens(t), t)
    decreases Size(t), if t.Pipe? || t.List? || t.Back? then 5 else 1
  {
    var c, rs := Core(t), Outer(t);
    Rewrapped(t);
    TargetsMix(rs);
    if c.Exec? {
      WordsMix(c.args);
      MixesAfter(WordTokens(c.args), c.args, [], TargetTokens(rs), [], rs);
      assert c.args + [] == c.args && [] + rs == rs;
    } else {
      LineSays(c);
      var line := LineTokens(c);
      var block := [Sym('(')] + line + [Sym(')')];
      assert block[1..|block| - 1] == line;
      BlockRedirs(block, c, TargetTokens(rs), rs);
    }
  }

  lemma PipeSays(t: Tree<string>)
    requires WellFormed(t)
    ensures IsPipeline(PipeTokens(t), t)
    decreases Size(t), if t.List? || t.Back? then 6 else 2
  {
    if t.Pipe? {
      ExecSays(t.left);
      PipeSays(t.right);
      var ts, i := PipeTokens(t), |ExecTokens(t.left)|;
      hide IsSingle;
      assert ts[..i] == ExecTokens(t.left) && ts[i + 1..] == PipeTokens(t.right);
      assert PipedAt(ts, t, i);
    } else {
      ExecSays(t);
    }
  }

  lemma {:induction false} AmpsSay(ts: seq<Token>, t: Tree<string>, n: nat)
    requires IsJob(ts, t)
    ensures IsJob(ts + Amps(n), Backs(t, n))
    decreases n
  {
    if n == 0 {
      assert ts + Amps(0) == ts;
    } else {
      var more := ts + [Sym('&')];
      assert more[..|more| - 1] == ts && more + Amps(n - 1) == ts + Amps(n);
      AmpsSay(more, Back(t), n - 1);
    }
  }

  lemma BackSays(t: Tree<string>)
    requires WellFormed(t)
    ensures IsJob(BackTokens(t), t)
    decreases Size(t), if t.List? then 7 else 3
  {
    PipeSays(Base(t));
    AmpsSay(PipeTokens(Base(t)), Base(t), Depth(t));
    Rebacked(t);
  }

  lemma LineSays(t: Tree<string>)
    requires WellFormed(t)
    ensures IsSentence(LineTokens(t), t)
    decreases Size(t), 4
  {
    if t.List? {
      BackSays(t.left);
      LineSays(t.right);
      var ts, i := LineTokens(t), |BackTokens(t.left)|;
      hide IsJob;
      assert ts[..i] == BackTokens(t.left) && ts[i + 1..] == LineTokens(t.right);
      assert ListedAt(ts, t, i);
    } else {
      BackSays(t);
    }
  }

  // ---- Only well-formed trees come out ----

  predicate GoodToken(t: Token)
  {
    match t
    case Sym(c) => IsSymbol(c)
    case Append => true
    case Word(w) => GoodWord(w)
  }

  ghost predicate GoodTokens(ts: seq<Token>)
  {
    forall k :: 0 <= k < |ts| ==> GoodToken(ts[k])
  }

  ghost predicate GoodResult(r: Parsed)
  {
    r.Done? ==> WellFormed(r.tree) && GoodTokens(r.rest)
  }

  lemma GoodRest(ts: seq<Token>, k: nat)
    requires GoodTokens(ts) && k <= |ts|
    ensures GoodTokens(ts[k..])
  {
  }

  lemma {:induction false} WrapGood(t: Tree<string>, rs: seq<Target<string>>)
    requires WellFormed(t) && forall k :: 0 <= k < |rs| ==> GoodTarget(rs[k])
    ensures WellFormed(Wrap(t, rs))
    decreases |rs|
  {
    if rs != [] {
      WrapGood(Redir(t, rs[0]), rs[1..]);
    }
  }

  lemma {:induction false} RedirsGood(ts: seq<Token>)
    requires GoodTokens(ts)
    ensures var r := Redirs(ts); r.Found? ==> GoodTokens(r.rest) && forall k ::
              0 <= k < |r.targets| ==> GoodTarget(r.targets[k])
    decreases |ts|
  {
    if StartsRedir(ts) && |ts| >= 2 && ts[1].Word? {
      GoodRest(ts, 2);
      RedirsGood(ts[2..]);
    }
  }

  lemma {:induction false} ArgsGood(args: seq<string>, rs: seq<Target<string>>, ts: seq<Token>)
    requires GoodTokens(ts) && |args| < MAXARGS
    requires (forall k :: 0 <= k < |args| ==> GoodWord(args[k])) && forall k :: 0 <= k < |rs| ==> GoodTarget(rs[k])
    ensures GoodResult(Args(args, rs, ts))
    decreases |ts|
  {
    if EndsExec(ts) {
      WrapGood(Exec(args), rs);
    } else if ts[0].Word? && |args| + 1 < MAXARGS {
      GoodRest(ts, 1);
      RedirsGood(ts[1..]);
      var r := Redirs(ts[1..]);
      if r.Found? {
        ArgsGood(args + [ts[0].w], rs + r.targets, r.rest);
      }
    }
  }

  lemma {:induction false} ExecGood(ts: seq<Token>)
    requires GoodTokens(ts)
    ensures GoodResult(ExecCmd(ts))
    decreases |ts|, 1
  {
    if Starts(ts, '(') {
      GoodRest(ts, 1);
      LineGood(ts[1..]);
      var b := LineCmd(ts[1..]);
      if b.Done? && Starts(b.rest, ')') {
        GoodRest(b.rest, 1);
        RedirsGood(b.rest[1..]);
        if Redirs(b.rest[1..]).Found? {
          WrapGood(b.tree, Redirs(b.rest[1..]).targets);
        }
      }
    } else {
      RedirsGood(ts);
      if Redirs(ts).Found? {
        ArgsGood([], Redirs(ts).targets, Redirs(ts).rest);
      }
    }
  }

  lemma {:induction false} PipeGood(ts: seq<Token>)
    requires GoodTokens(ts)
    ensures GoodResult(PipeCmd(ts))
    decreases |ts|, 2
  {
    ExecGood(ts);
    var e := ExecCmd(ts);
    if e.Done? && Starts(e.rest, '|') {
      GoodRest(e.rest, 1);
      PipeGood(e.rest[1..]);
    }
  }

  lemma {:induction false} AndsGood(t: Tree<string>, ts: seq<Token>)
    requires WellFormed(t) && GoodTokens(ts)
    ensures GoodResult(Ands(t, ts))
    decreases |ts|
  {
    if Starts(ts, '&') {
      GoodRest(ts, 1);
      AndsGood(Back(t), ts[1..]);
    }
  }

  /** Whatever the line, the tree the parser builds is well formed. */
  lemma {:induction false} LineGood(ts: seq<Token>)
    requires GoodTokens(ts)
    ensures GoodResult(LineCmd(ts))
    decreases |ts|, 3
  {
    PipeGood(ts);
    var p := PipeCmd(ts);
    if p.Done? {
      AndsGood(p.tree, p.rest);
      var b := Ands(p.tree, p.rest);
      if Starts(b.rest, ';') {
        GoodRest(b.rest, 1);
        LineGood(b.rest[1..]);
      }
    }
  }

  // ---- Text ----

  function TokenText(t: Token): string
  {
    match t
    case Sym(c) => [c]
    case Append => ">>"
    case Word(w) => w
  }

  /** Position q of a line is where token t begins, read as far as it goes: to position e. */
  ghost predicate Stands(s: Line, q: nat, t: Token, e: nat)
  {
    q < e <= |s| &&
    match t
    case Sym(c) => e == q + 1 && s[q] == c && c in "<|>&;()" && (c == '>' && e < |s| ==> s[e] != '>')
    case Append => e == q + 2 && s[q] == '>' && s[q + 1] == '>'
    case Word(w) => w == s[q..e] && (forall k :: q <= k < e ==> s[k] !in " \t\r\n\U{0B}<|>&;()")
                    && (e < |s| ==> s[e] in " \t\r\n\U{0B}<|>&;()")
  }

  ghost predicate Blank(s: Line, p: nat, q: nat)
  {
    p <= q <= |s| && forall k :: p <= k < q ==> s[k] in " \t\r\n\U{0B}"
  }

  /** From position p on the line is the given tokens, with blanks between them, or not. */
  ghost predicate Spells(s: Line, p: nat, ts: seq<Token>)
    decreases |ts|, 1
  {
    if ts == [] then Blank(s, p, |s|) else exists q: nat, e: nat :: SpellsFirst(s, p, ts, q, e)
  }

  ghost predicate SpellsFirst(s: Line, p: nat, ts: seq<Token>, q: nat, e: nat)
    requires ts != []
    decreases |ts|, 0
  {
    Blank(s, p, q) && Stands(s, q, ts[0], e) && Spells(s, e, ts[1..])
  }

  lemma StandsIff(s: Line, q: nat, t: Token, e: nat)
    requires q < |s| && s[q] !in " \t\r\n\U{0B}"
    ensures Stands(s, q, t, e) <==> TokenAt(s, q) == t && TokenEnd(s, q) == e
  {
    assert !IsSpace(s[q]);
    if t.Word? && Stands(s, q, t, e) {
      WordEndOnce(s, q, e);
    }
  }

  lemma StandsFirst(s: Line, p: nat, q: nat, t: Token, e: nat)
    requires Blank(s, p, q) && Stands(s, q, t, e)
    ensures e <= |s| && Tokens(s, p) == [t] + Tokens(s, e)
  {
    StandsIff(s, q, t, e);
    SkipOnce(s, p, q);
  }

  lemma {:induction false} SpellsTokens(s: Line, p: nat, ts: seq<Token>)
    requires Spells(s, p, ts)
    ensures p <= |s| && Tokens(s, p) == ts
    decreases |ts|
  {
    if ts == [] {
      SkipOnce(s, p, |s|);
    } else {
      var q: nat, e: nat :| SpellsFirst(s, p, ts, q, e);
      assert p <= |s|;
      StandsFirst(s, p, q, ts[0], e);
      hide Tokens;
      SpellsTokens(s, e, ts[1..]);
      assert ts == [ts[0]] + ts[1..];
    }
  }

  lemma {:induction false} TokensSpell(s: Line, p: nat)
    requires p <= |s|
    ensures Spells(s, p, Tokens(s, p))
    decreases |s| - p
  {
    var q := Skip(s, p);
    if q < |s| {
      var t, e := TokenAt(s, q), TokenEnd(s, q);
      StandsIff(s, q, t, e);
      TokensSpell(s, e);
      var ts := Tokens(s, p);
      assert ts == [t] + Tokens(s, e);
      hide Tokens;
      assert ts[1..] == Tokens(s, e);
      assert SpellsFirst(s, p, ts, q, e);
    }
  }

  /** The lexer finds exactly the tokens the line spells. */
  lemma LexIff(s: Line, p: nat, ts: seq<Token>)
    requires p <= |s|
    ensures Tokens(s, p) == ts <==> Spells(s, p, ts)
  {
    TokensSpell(s, p);
    if Spells(s, p, ts) {
      SpellsTokens(s, p, ts);
    }
  }

  /** Tokens written out, each followed by a blank. */
  function Render(ts: seq<Token>): (s: string)
    decreases |ts|
  {
    if ts == [] then "" else TokenText(ts[0]) + " " + Render(ts[1..])
  }

  lemma {:induction false} RenderLine(ts: seq<Token>)
    requires GoodTokens(ts)
    ensures forall k :: 0 <= k < |Render(ts)| ==> Render(ts)[k] != '\0'
    decreases |ts|
  {
    if ts != [] {
      GoodRest(ts, 1);
      RenderLine(ts[1..]);
    }
  }

  /** The line holds x at position p. */
  ghost predicate Holds(s: string, p: nat, x: string)
  {
    p + |x| <= |s| && forall k {:trigger x[k]} :: 0 <= k < |x| ==> s[p + k] == x[k]
  }

  lemma HoldsParts(s: string, p: nat, a: string, rest: string)
    requires Holds(s, p, a + " " + rest)
    ensures var e := p + |a|; Holds(s, p, a) && e < |s| && s[e] == ' ' && Holds(s, e + 1, rest)
  {
    var x := a + " " + rest;
    assert x[|a|] == ' ';
    forall k | 0 <= k < |a| ensures s[p + k] == a[k] {
      assert x[k] == a[k];
    }
    forall k | 0 <= k < |rest| ensures s[p + |a| + 1 + k] == rest[k] {
      assert x[|a| + 1 + k] == rest[k];
    }
  }

  /** A token's text followed by a blank reads as that token. */
  lemma LexOne(s: Line, p: nat, t: Token)
    requires GoodToken(t) && Holds(s, p, TokenText(t)) && p + |TokenText(t)| < |s| && s[p + |TokenText(t)|] == ' '
    ensures Skip(s, p) == p && !IsSpace(s[p]) && TokenAt(s, p) == t && TokenEnd(s, p) == p + |TokenText(t)|
  {
    var x, e := TokenText(t), p + |TokenText(t)|;
    assert s[p] == x[0];
    if t.Word? {
      forall k | p <= k < e ensures IsWordChar(s[k]) {
        assert s[k] == x[k - p];
      }
      WordEndOnce(s, p, e);
      assert s[p..e] == x;
    } else if t.Append? {
      assert s[p + 1] == x[1];
    }
  }

  lemma LexStep(s: Line, p: nat, t: Token, e: nat)
    requires GoodToken(t) && e == p + |TokenText(t)| && e < |s| && Holds(s, p, TokenText(t)) && s[e] == ' '
    ensures Tokens(s, p) == [t] + Tokens(s, e + 1)
  {
    LexOne(s, p, t);
    SkipOnce(s, e, e + 1);
  }

  /** p is where the text of ts begins, and nothing follows it. */
  ghost predicate Written(s: Line, p: nat, ts: seq<Token>)
  {
    p + |Render(ts)| == |s| && Holds(s, p, Render(ts))
  }

  lemma LexFront(s: Line, p: nat, ts: seq<Token>) returns (next: nat)
    requires ts != [] && GoodToken(ts[0]) && Written(s, p, ts)
    ensures next <= |s| && Written(s, next, ts[1..]) && Tokens(s, p) == [ts[0]] + Tokens(s, next)
  {
    var e := p + |TokenText(ts[0])|;
    HoldsParts(s, p, TokenText(ts[0]), Render(ts[1..]));
    LexStep(s, p, ts[0], e);
    next := e + 1;
  }

  lemma NoTokens(s: Line, p: nat)
    requires Written(s, p, [])
    ensures Tokens(s, p) == []
  {
  }

  /** Reading the text of a sequence of tokens gives the tokens back. */
  lemma {:induction false} LexRender(s: Line, p: nat, ts: seq<Token>)
    requires GoodTokens(ts) && Written(s, p, ts)
    ensures Tokens(s, p) == ts
    decreases |ts|
  {
    if ts == [] {
      NoTokens(s, p);
    } else {
      var next := LexFront(s, p, ts);
      GoodRest(ts, 1);
      LexRender(s, next, ts[1..]);
      assert ts == [ts[0]] + ts[1..];
    }
  }

  /** The tokens of any line are good ones. */
  lemma {:induction false} TokensGood(s: Line, p: nat)
    requires p <= |s|
    ensures GoodTokens(Tokens(s, p))
    decreases |s| - p
  {
    var q := Skip(s, p);
    if q < |s| {
      TokensGood(s, TokenEnd(s, q));
    }
  }

  lemma LineTokensGood(t: Tree<string>)
    requires WellFormed(t)
    ensures GoodTokens(LineTokens(t))
    decreases Size(t), 4
  {
    if t.List? {
      BackTokensGood(t.left);
      LineTokensGood(t.right);
    } else {
      BackTokensGood(t);
    }
  }

  lemma BackTokensGood(t: Tree<string>)
    requires WellFormed(t)
    ensures GoodTokens(BackTokens(t))
    decreases Size(t), if t.List? then 7 else 3
  {
    PipeTokensGood(Base(t));
    AmpsGood(Depth(t));
  }

  lemma {:induction false} AmpsGood(n: nat)
    ensures GoodTokens(Amps(n))
  {
    if n > 0 {
      AmpsGood(n - 1);
    }
  }

  lemma PipeTokensGood(t: Tree<string>)
    requires WellFormed(t)
    ensures GoodTokens(PipeTokens(t))
    decreases Size(t), if t.List? || t.Back? then 6 else 2
  {
    if t.Pipe? {
      ExecTokensGood(t.left);
      PipeTokensGood(t.right);
    } else {
      ExecTokensGood(t);
    }
  }

  lemma ExecTokensGood(t: Tree<string>)
    requires WellFormed(t)
    ensures GoodTokens(ExecTokens(t))
    decreases Size(t), if t.Pipe? || t.List? || t.Back? then 5 else 1
  {
    TargetTokensGood(Outer(t));
    var c := Core(t);
    if !c.Exec? {
      LineTokensGood(c);
    }
  }

  lemma {:induction false} TargetTokensGood(rs: seq<Target<string>>)
    requires forall k :: 0 <= k < |rs| ==> GoodTarget(rs[k])
    ensures GoodTokens(TargetTokens(rs))
    decreases |rs|
  {
    if rs != [] {
      TargetTokensGood(rs[1..]);
    }
  }

  /** The text of a tree. */
  function Text(t: Tree<string>): string
  {
    Render(LineTokens(t))
  }

  /** Parsing the text of any tree the grammar can build gives back that tree. */
  lemma RoundTrip(t: Tree<string>)
    requires WellFormed(t)
    ensures forall k :: 0 <= k < |Text(t)| ==> Text(t)[k] != '\0'
    ensures Command(Tokens(Text(t), 0)) == Done(t, [])
  {
    var ts := LineTokens(t);
    LineTokensGood(t);
    RenderLine(ts);
    LexRender(Text(t), 0, ts);
    LineSays(t);
    ParsesIff(ts, t);
  }

  /** A line that parses means the same as the text of its tree. */
  lemma Normalised(s: Line)
    requires Command(Tokens(s, 0)).Done?
    ensures var t := Command(Tokens(s, 0)).tree;
            WellFormed(t) && (forall k :: 0 <= k < |Text(t)| ==> Text(t)[k] != '\0')
                && Command(Tokens(Text(t), 0)) == Command(Tokens(s, 0))
  {
    TokensGood(s, 0);
    LineGood(Tokens(s, 0));
    RoundTrip(Command(Tokens(s, 0)).tree);
  }
}
