/**
The regular-expression matcher of grep.c, against what its patterns denote.
*/
module Grep {

  /** A C string: its characters up to the terminating NUL. */
  type CString = s: string | forall k :: 0 <= k < |s| ==> s[k] != '\0'

  function CharAt(s: CString, k: nat): (c: char)
    requires k <= |s|
    ensures c == '\0' <==> k == |s|
  {
    if k < |s| then s[k] else '\0'
  }

  // ---- Patterns ----

  /** One character, or a run of them; '.' stands for any character. */
  datatype Item = One(c: char) | Star(c: char)

  /** Items in order, and whether the match must reach the end of the text. */
  datatype Pattern = Pattern(items: seq<Item>, toEnd: bool)

  /**
  The pattern a regular expression without leading '^' stands for. A star makes a run of whatever
  character precedes it; '$' is special only as the last character, '*' only after a character.
  */
  function Parse(re: CString): (p: Pattern)
    decreases |re|
  {
    if re == "" then Pattern([], false)
    else if |re| >= 2 && re[1] == '*' then
      var p := Parse(re[2..]);
      Pattern([Star(re[0])] + p.items, p.toEnd)
    else if re == "$" then Pattern([], true)
    else
      var p := Parse(re[1..]);
      Pattern([One(re[0])] + p.items, p.toEnd)
  }

  /** The text of a pattern. */
  function Print(p: Pattern): string
    decreases |p.items|
  {
    if p.items == [] then (if p.toEnd then "$" else "")
    else
      var rest := Print(Pattern(p.items[1..], p.toEnd));
      match p.items[0]
      case One(c) => [c] + rest
      case Star(c) => [c, '*'] + rest
  }

  /** No character of the text of p would be read as a star or end mark that p does not have. */
  ghost predicate Readable(p: Pattern)
  {
    && (forall k :: 0 <= k < |p.items| ==> p.items[k].c != '\0')
    && (forall k :: 0 <= k < |p.items| - 1 && p.items[k].One? ==> p.items[k + 1].c != '*')
    && (p.items != [] && p.items[|p.items| - 1] == One('$') ==> p.toEnd)
  }

  /** Reading a regular expression loses nothing. */
  lemma {:induction false} PrintParse(re: CString)
    ensures Print(Parse(re)) == re
    decreases |re|
  {
    var p := Parse(re);
    if |re| >= 2 && re[1] == '*' {
      PrintParse(re[2..]);
      assert Pattern(p.items[1..], p.toEnd) == Parse(re[2..]);
      assert re == [re[0], '*'] + re[2..];
    } else if re != "" && re != "$" {
      PrintParse(re[1..]);
      assert Pattern(p.items[1..], p.toEnd) == Parse(re[1..]);
      assert re == [re[0]] + re[1..];
    }
  }

  lemma ParseStar(c: char, rest: CString)
    requires c != '\0'
    ensures Parse([c, '*'] + rest) == Pattern([Star(c)] + Parse(rest).items, Parse(rest).toEnd)
  {
    assert ([c, '*'] + rest)[2..] == rest;
  }

  lemma ParseOne(c: char, rest: CString)
    requires c != '\0' && (if rest == "" then c != '$' else rest[0] != '*')
    ensures Parse([c] + rest) == Pattern([One(c)] + Parse(rest).items, Parse(rest).toEnd)
  {
    assert ([c] + rest)[1..] == rest;
  }

  lemma ReadableRest(p: Pattern)
    requires Readable(p) && p.items != []
    ensures Readable(Pattern(p.items[1..], p.toEnd))
    ensures p.items[0].c != '\0' && (|p.items| > 1 && p.items[0].One? ==> p.items[1].c != '*')
  {
    var q := Pattern(p.items[1..], p.toEnd);
    forall k | 0 <= k < |q.items| ensures q.items[k] == p.items[k + 1] {
    }
    forall k | 0 <= k < |q.items| - 1 && q.items[k].One? ensures q.items[k + 1].c != '*' {
      assert p.items[k + 2].c != '*';
    }
  }

  /** Every readable pattern is the pattern of its text. */
  lemma {:induction false} ParsePrint(p: Pattern)
    requires Readable(p)
    ensures forall k :: 0 <= k < |Print(p)| ==> Print(p)[k] != '\0'
    ensures Parse(Print(p)) == p
    ensures if p.items == [] then (Print(p) == "" <==> !p.toEnd) && (p.toEnd ==> Print(p) == "$")
            else Print(p) != "" && Print(p)[0] == p.items[0].c
    decreases |p.items|
  {
    if p.items != [] {
      var q := Pattern(p.items[1..], p.toEnd);
      ReadableRest(p);
      ParsePrint(q);
      assert p.items == [p.items[0]] + q.items;
      match p.items[0]
      case Star(c) => ParseStar(c, Print(q));
      case One(c) =>
        if q.items != [] {
          assert q.items[0] == p.items[1];
        }
        ParseOne(c, Print(q));
    }
  }

  predicate Fits(c: char, t: char)
  {
    c == '.' || c == t
  }

  /** The strings an item stands for. */
  ghost predicate Denotes(item: Item, w: string)
  {
    match item
    case One(c) => |w| == 1 && Fits(c, w[0])
    case Star(c) => forall k :: 0 <= k < |w| ==> Fits(c, w[k])
  }

  /** The cuts divide a stretch of text into one piece for each item. */
  ghost predicate Divides(items: seq<Item>, text: string, cuts: seq<nat>)
  {
    && |cuts| == |items| + 1
    && (forall k :: 0 <= k < |cuts| ==> cuts[k] <= |text|)
    && forall k :: 0 <= k < |items| ==> PieceOk(items[k], text, cuts[k], cuts[k + 1])
  }

  ghost predicate PieceOk(item: Item, text: string, from: nat, to: nat)
  {
    from <= to <= |text| && Denotes(item, text[from..to])
  }

  ghost predicate Witness(p: Pattern, text: string, from: nat, cuts: seq<nat>)
  {
    Divides(p.items, text, cuts) && cuts[0] == from && (p.toEnd ==> cuts[|p.items|] == |text|)
  }

  /** The pattern matches the text from position `from` on. */
  ghost predicate MatchesAt(p: Pattern, text: string, from: nat)
  {
    exists cuts: seq<nat> :: Witness(p, text, from, cuts)
  }

  /** The regular expression matches somewhere in the text, or at its start if it begins with '^'. */
  ghost predicate Matches(re: CString, text: string)
  {
    if re != "" && re[0] == '^' then MatchesAt(Parse(re[1..]), text, 0)
    else exists from: nat :: from <= |text| && MatchesAt(Parse(re), text, from)
  }

  // ---- How a match decomposes ----

  lemma MatchesNone(p: Pattern, text: string, from: nat)
    requires p.items == [] && from <= |text|
    ensures MatchesAt(p, text, from) <==> (p.toEnd ==> from == |text|)
  {
    if p.toEnd ==> from == |text| {
      assert Witness(p, text, from, [from]);
    }
  }

  ghost function Behind(p: Pattern): Pattern
    requires p.items != []
  {
    Pattern(p.items[1..], p.toEnd)
  }

  /** A match is a piece for the first item followed by a match of the rest. */
  lemma MatchesFirst(p: Pattern, text: string, from: nat)
    requires p.items != [] && from <= |text|
    ensures MatchesAt(p, text, from) <==>
            exists to: nat :: PieceOk(p.items[0], text, from, to) && MatchesAt(Behind(p), text, to)
  {
    if MatchesAt(p, text, from) {
      var cuts: seq<nat> :| Witness(p, text, from, cuts);
      assert PieceOk(p.items[0], text, cuts[0], cuts[1]);
      forall k | 0 <= k < |p.items| - 1 ensures PieceOk(Behind(p).items[k], text, cuts[1..][k], cuts[1..][k + 1]) {
        assert PieceOk(p.items[k + 1], text, cuts[k + 1], cuts[k + 2]);
      }
      assert Witness(Behind(p), text, cuts[1], cuts[1..]);
    }
    if exists to: nat :: PieceOk(p.items[0], text, from, to) && MatchesAt(Behind(p), text, to) {
      var to: nat :| PieceOk(p.items[0], text, from, to) && MatchesAt(Behind(p), text, to);
      var rest: seq<nat> :| Witness(Behind(p), text, to, rest);
      var cuts := [from] + rest;
      forall k | 0 <= k < |p.items| ensures PieceOk(p.items[k], text, cuts[k], cuts[k + 1]) {
        if k > 0 {
          assert PieceOk(Behind(p).items[k - 1], text, rest[k - 1], rest[k]);
        }
      }
      assert Witness(p, text, from, cuts);
    }
  }

  lemma MatchesOne(c: char, p: Pattern, text: string, from: nat)
    requires from <= |text|
    ensures MatchesAt(Pattern([One(c)] + p.items, p.toEnd), text, from) <==>
            from < |text| && Fits(c, text[from]) && MatchesAt(p, text, from + 1)
  {
    var q := Pattern([One(c)] + p.items, p.toEnd);
    MatchesFirst(q, text, from);
    assert Behind(q) == p;
    if from < |text| && Fits(c, text[from]) && MatchesAt(p, text, from + 1) {
      assert PieceOk(q.items[0], text, from, from + 1);
    }
  }

  /** Every character of text[from..to] fits c. */
  ghost predicate Run(c: char, text: string, from: nat, to: nat)
  {
    from <= to <= |text| && forall k :: from <= k < to ==> Fits(c, text[k])
  }

  lemma MatchesStar(c: char, p: Pattern, text: string, from: nat)
    requires from <= |text|
    ensures MatchesAt(Pattern([Star(c)] + p.items, p.toEnd), text, from) <==>
            exists to: nat :: Run(c, text, from, to) && MatchesAt(p, text, to)
  {
    var q := Pattern([Star(c)] + p.items, p.toEnd);
    MatchesFirst(q, text, from);
    assert Behind(q) == p;
    forall to: nat ensures PieceOk(q.items[0], text, from, to) <==> Run(c, text, from, to) {
      if PieceOk(q.items[0], text, from, to) {
        forall k | from <= k < to ensures Fits(c, text[k]) {
          assert text[from..to][k - from] == text[k];
        }
      }
    }
  }

  // ---- The matcher ----

  /** matchhere: search for re at position `at` of the text. */
  method MatchHere(re: CString, text: CString, at: nat) returns (found: bool)
    requires at <= |text|
    ensures found <==> MatchesAt(Parse(re), text, at)
    decreases |re|, 0
  {
    if CharAt(re, 0) == '\0' {
      MatchesNone(Parse(re), text, at);
      return true;
    }
    if CharAt(re, 1) == '*' {
      found := MatchStar(re[0], re[2..], text, at);
      return;
    }
    if re[0] == '$' && CharAt(re, 1) == '\0' {
      MatchesNone(Parse(re), text, at);
      return CharAt(text, at) == '\0';
    }
    MatchesOne(re[0], Parse(re[1..]), text, at);
    if CharAt(text, at) != '\0' && (re[0] == '.' || re[0] == text[at]) {
      found := MatchHere(re[1..], text, at + 1);
      return;
    }
    return false;
  }

  /** matchstar: search for c*re at position `at`, trying the shortest run first. */
  method MatchStar(c: char, re: CString, text: CString, at: nat) returns (found: bool)
    requires at <= |text|
    ensures found <==> MatchesAt(Pattern([Star(c)] + Parse(re).items, Parse(re).toEnd), text, at)
    decreases |re|, 1
  {
    MatchesStar(c, Parse(re), text, at);
    var t := at;
    while true
      invariant at <= t <= |text| && Run(c, text, at, t)
      invariant forall to: nat | at <= to < t :: !MatchesAt(Parse(re), text, to)
      decreases |text| - t
    {
      found := MatchHere(re, text, t);
      if found {
        return;
      }
      if !(CharAt(text, t) != '\0' && (CharAt(text, t) == c || c == '.')) {
        break;
      }
      t := t + 1;
    }
    assert forall to: nat | Run(c, text, at, to) :: to <= t;
    return false;
  }

  /** match: search for re anywhere in the text. */
  method Match(re: CString, text: CString) returns (found: bool)
    ensures found <==> Matches(re, text)
  {
    if CharAt(re, 0) == '^' {
      found := MatchHere(re[1..], text, 0);
      return;
    }
    var t := 0;
    while true
      invariant t <= |text|
      invariant forall from: nat | from < t :: !MatchesAt(Parse(re), text, from)
      decreases |text| - t
    {
      found := MatchHere(re, text, t);
      if found {
        return;
      }
      if CharAt(text, t) == '\0' {
        return false;
      }
      t := t + 1;
    }
  }
}
