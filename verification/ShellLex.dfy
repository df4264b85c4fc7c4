/**
The shell's lexer (sh.c): gettoken and peek, against the sequence of tokens left in the line.
*/
module ShellLex {

  predicate IsSpace(c: char)
  {
    c == ' ' || c == '\t' || c == '\r' || c == '\n' || c == '\U{0B}'
  }

  predicate IsSymbol(c: char)
  {
    c == '<' || c == '|' || c == '>' || c == '&' || c == ';' || c == '(' || c == ')'
  }

  predicate IsWordChar(c: char)
  {
    !IsSpace(c) && !IsSymbol(c) && c != '\0'
  }

  /** A command line: the characters before the terminating NUL. */
  type Line = s: string | forall k :: 0 <= k < |s| ==> s[k] != '\0'

  /** A symbol of one character, ">>", or a word. */
  datatype Token = Sym(c: char) | Append | Word(w: string)

  /** The first position from p on that is not blank. */
  function Skip(s: Line, p: nat): (q: nat)
    requires p <= |s|
    ensures p <= q <= |s| && (q < |s| ==> !IsSpace(s[q]))
    ensures forall k :: p <= k < q ==> IsSpace(s[k])
    decreases |s| - p
  {
    if p < |s| && IsSpace(s[p]) then Skip(s, p + 1) else p
  }

  /** The first position from p on that is not part of a word. */
  function WordEnd(s: Line, p: nat): (e: nat)
    requires p <= |s|
    ensures p <= e <= |s| && (e < |s| ==> !IsWordChar(s[e]))
    ensures forall k :: p <= k < e ==> IsWordChar(s[k])
    decreases |s| - p
  {
    if p < |s| && IsWordChar(s[p]) then WordEnd(s, p + 1) else p
  }

  /** The token that begins at the nonblank position q. */
  function TokenAt(s: Line, q: nat): (t: Token)
    requires q < |s| && !IsSpace(s[q])
  {
    if s[q] == '>' && q + 1 < |s| && s[q + 1] == '>' then Append
    else if IsSymbol(s[q]) then Sym(s[q])
    else Word(s[q..WordEnd(s, q)])
  }

  /** Where that token ends. */
  function TokenEnd(s: Line, q: nat): (e: nat)
    requires q < |s| && !IsSpace(s[q])
    ensures q < e <= |s|
  {
    if s[q] == '>' && q + 1 < |s| && s[q + 1] == '>' then q + 2
    else if IsSymbol(s[q]) then q + 1
    else WordEnd(s, q)
  }

  /** The tokens from p to the end of the line. */
  function Tokens(s: Line, p: nat): (ts: seq<Token>)
    requires p <= |s|
    decreases |s| - p
  {
    var q := Skip(s, p);
    if q == |s| then [] else [TokenAt(s, q)] + Tokens(s, TokenEnd(s, q))
  }

  lemma SkipOnce(s: Line, p: nat, q: nat)
    requires p <= q <= |s| && forall k :: p <= k < q ==> IsSpace(s[k])
    ensures Skip(s, p) == Skip(s, q) && Tokens(s, p) == Tokens(s, q)
    decreases q - p
  {
    if p < q {
      SkipOnce(s, p + 1, q);
    }
  }

  /** The character gettoken returns for a token: its symbol, '+' for ">>", 'a' for a word. */
  function Code(t: Token): char
  {
    match t
    case Sym(c) => c
    case Append => '+'
    case Word(_) => 'a'
  }

  /** The token begins with one of the given symbols. */
  predicate BeginsIn(t: Token, toks: string)
  {
    match t
    case Sym(c) => c in toks
    case Append => '>' in toks
    case Word(_) => false
  }

  /** A maximal word of the line. */
  ghost predicate WordAt(s: Line, q: nat, eq: nat)
  {
    q < eq <= |s| && (forall k :: q <= k < eq ==> IsWordChar(s[k])) && (eq < |s| ==> !IsWordChar(s[eq]))
  }

  function CharAt(s: Line, k: nat): (c: char)
    requires k <= |s|
    ensures c == '\0' <==> k == |s|
  {
    if k < |s| then s[k] else '\0'
  }

  method SkipBlanks(s: Line, p: nat) returns (q: nat)
    requires p <= |s|
    ensures q == Skip(s, p)
  {
    q := p;
    while q < |s| && IsSpace(s[q])
      invariant p <= q <= |s| && forall k :: p <= k < q ==> IsSpace(s[k])
    {
      q := q + 1;
    }
    SkipOnce(s, p, q);
  }

  /** The middle of gettoken: the token at the nonblank position q, and where it ends. */
  method Scan(s: Line, q: nat) returns (ret: char, eq: nat)
    requires q <= |s| && (q < |s| ==> !IsSpace(s[q]))
    ensures if q == |s| then ret == '\0' && eq == q else ret == Code(TokenAt(s, q)) != '\0' && eq == TokenEnd(s, q)
    ensures ret == 'a' <==> q < |s| && TokenAt(s, q).Word?
  {
    ret := CharAt(s, q);
    eq := q;
    match ret {
      case '\0' =>
      case '|' => eq := q + 1;
      case '(' => eq := q + 1;
      case ')' => eq := q + 1;
      case ';' => eq := q + 1;
      case '&' => eq := q + 1;
      case '<' => eq := q + 1;
      case '>' =>
        eq := q + 1;
        if CharAt(s, eq) == '>' {
          ret := '+';
          eq := eq + 1;
        }
      case _ =>
        ret := 'a';
        while eq < |s| && !IsSpace(s[eq]) && !IsSymbol(s[eq])
          invariant q <= eq <= |s| && forall k :: q <= k < eq ==> IsWordChar(s[k])
        {
          eq := eq + 1;
        }
        WordEndOnce(s, q, eq);
    }
  }

  /** The first token from p, if any, has been read as ret; it lies at q..eq, and reading goes on at next. */
  ghost predicate Took(s: Line, p: nat, ret: char, q: nat, eq: nat, next: nat)
    requires p <= |s|
  {
    var ts := Tokens(s, p);
    && p <= q <= eq <= next <= |s|
    && (ret == '\0' <==> ts == [])
    && (ret == 'a' <==> ts != [] && ts[0].Word?)
    && (ts == [] ==> next == |s|)
    && (ts != [] ==> p < next && ret == Code(ts[0]) && Tokens(s, next) == ts[1..])
    && (ts != [] && ts[0].Word? ==> WordAt(s, q, eq) && ts[0].w == s[q..eq])
  }

  /** gettoken takes the first token off the line, and says where it lies. */
  method GetToken(s: Line, p: nat) returns (ret: char, q: nat, eq: nat, next: nat)
    requires p <= |s|
    ensures Took(s, p, ret, q, eq, next)
  {
    q := SkipBlanks(s, p);
    ret, eq := Scan(s, q);
    next := SkipBlanks(s, eq);
    SkipOnce(s, eq, next);
  }

  lemma WordEndOnce(s: Line, p: nat, e: nat)
    requires p <= e <= |s| && (forall k :: p <= k < e ==> IsWordChar(s[k])) && (e < |s| ==> !IsWordChar(s[e]))
    ensures WordEnd(s, p) == e
    decreases e - p
  {
  }

  /** peek skips blanks and says whether the next token begins with one of the given symbols. */
  method Peek(s: Line, p: nat, toks: string) returns (yes: bool, next: nat)
    requires p <= |s| && forall c :: c in toks ==> IsSymbol(c)
    ensures p <= next <= |s| && Tokens(s, next) == Tokens(s, p)
    ensures next == |s| <==> Tokens(s, p) == []
    ensures yes <==> Tokens(s, p) != [] && BeginsIn(Tokens(s, p)[0], toks)
  {
    next := SkipBlanks(s, p);
    SkipOnce(s, p, next);
    yes := CharAt(s, next) != '\0' && CharAt(s, next) in toks;
  }
}
