/** What the lexer and the parser guarantee on every source text. */
module FrontEnd {
  import opened Syntax
  import opened Lexer
  import opened Parser

  function NewlinesIn(s: string): nat {
    if |s| == 0 then 0 else (if s[0] == '\n' then 1 else 0) + NewlinesIn(s[1..])
  }

  function NewlineTokens(toks: seq<Token>): nat {
    if |toks| == 0 then 0 else (if toks[0].kind == Newline then 1 else 0) + NewlineTokens(toks[1..])
  }

  /** The stream ends with its only `End`, has one `Newline` per line break of the text, and every
      token carries the line it stands on. */
  predicate Stream(toks: seq<Token>, line: nat, newlines: nat) {
    && Terminated(toks)
    && NewlineTokens(toks) == newlines
    && forall k :: 0 <= k < |toks| ==> toks[k].line == line + NewlineTokens(toks[..k])
  }

  lemma NoNewlineInLexeme(s: string)
    requires |s| > 0 && (LexOne(s).Blank? || LexOne(s).Item?)
    ensures forall i :: 0 <= i < LexOne(s).len ==> s[i] != '\n'
    ensures LexOne(s).Item? ==> LexOne(s).kind != End && LexOne(s).kind != Newline
  {
    hide ParseNumber, RegisterIndex;
  }

  lemma {:induction false} NewlinesSkipped(s: string, n: nat)
    requires n <= |s| && forall i :: 0 <= i < n ==> s[i] != '\n'
    ensures NewlinesIn(s[n..]) == NewlinesIn(s)
  {
    if n > 0 {
      assert s[1..][n - 1..] == s[n..];
      assert forall i :: 0 <= i < n - 1 ==> s[1..][i] == s[i + 1];
      NewlinesSkipped(s[1..], n - 1);
    } else {
      assert s[0..] == s;
    }
  }

  lemma StreamPrepend(t: Token, toks: seq<Token>, line: nat, newlines: nat)
    requires t.kind != End && t.line == line
    requires Stream(toks, if t.kind == Newline then line + 1 else line, newlines)
    ensures Stream([t] + toks, line, newlines + (if t.kind == Newline then 1 else 0))
  {
    var all := [t] + toks;
    assert all[1..] == toks;
    forall k | 0 <= k < |all|
      ensures all[k].line == line + NewlineTokens(all[..k])
    {
      if k > 0 {
        assert all[..k][1..] == toks[..k - 1];
      }
    }
  }

  /** Every accepted text yields such a stream. */
  lemma {:induction false} LexedStream(s: string, line: nat)
    ensures Lex(s, line).Success? ==> Stream(Lex(s, line).value, line, NewlinesIn(s))
    decreases |s|
  {
    hide LexOne, Stream;
    if |s| == 0 {
      EndStream(line);
    } else {
      var x := LexOne(s);
      match x
      case Blank(n) =>
        LexedStream(s[n..], line);
        NoNewlineInLexeme(s);
        NewlinesSkipped(s, n);
      case LineEnd =>
        LexedStream(s[1..], line + 1);
        LineEndIsNewline(s);
        var r := Lex(s[1..], line + 1);
        if r.Success? { StreamPrepend(Token(Newline, "\\n", 0, line), r.value, line, NewlinesIn(s[1..])); }
      case Item(n, kind, value) =>
        LexedStream(s[n..], line);
        NoNewlineInLexeme(s);
        NewlinesSkipped(s, n);
        var r := Lex(s[n..], line);
        if r.Success? { StreamPrepend(Token(kind, s[..n], value, line), r.value, line, NewlinesIn(s[n..])); }
      case NoNumber =>
      case NoToken =>
    }
  }

  lemma EndStream(line: nat)
    ensures Stream([Token(End, "", 0, line)], line, 0)
  {
    var toks := [Token(End, "", 0, line)];
    assert toks[1..] == [];
    assert toks[..0] == [];
  }

  lemma LineEndIsNewline(s: string)
    requires |s| > 0
    ensures LexOne(s).LineEnd? ==> s[0] == '\n'
  {
    hide RunLength, NumberLength, ParseNumber, RegisterIndex;
  }

  /** Front-end safety: on every text the lexer accepts, the parser's precondition holds - so it ends
      and never moves past `End` - and every operand it accepts names a register below 16. */
  lemma FrontEndSafe(src: string)
    requires Lex(src, 1).Success?
    ensures var toks := Lex(src, 1).value;
      && Stream(toks, 1, NewlinesIn(src))
      && (StatementsFrom(toks, 0).Success? ==>
            forall s :: s in StatementsFrom(toks, 0).value ==> StatementLegal(s))
  {
    hide Lex;
    LexedStream(src, 1);
  }
}
