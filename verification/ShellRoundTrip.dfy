/** Printing a well-formed shell tree and reading it back gives the same tree, except
    that a one-command pipe, "and" or "or" group reads as a one-command sequence. */
module ShellRoundTrip {
  import opened Text
  import opened ShellCmd
  import opened ShellParser
  import opened ShellLexing
  import opened ShellPrinting

  /** The tree that the printed text means. */
  function Canon(c: Cmd): Cmd
    decreases c, 0
  {
    match c
    case Redirect(w, r) => Redirect(Canon(w), r)
    case Pipe(cs) => Group(TPipe, CanonAll(cs))
    case And(cs) => Group(TAnd, CanonAll(cs))
    case Or(cs) => Group(TOr, CanonAll(cs))
    case Seq(cs) => Seq(CanonAll(cs))
    case While(a, d) => While(Canon(a), Canon(d))
    case Until(a, d) => Until(Canon(a), Canon(d))
    case For(n, ws, d) => For(n, ws, Canon(d))
    case If(i, t, es, e) =>
      If(Canon(i), Canon(t), CanonElifs(es), CanonElse(e))
    case _ => c
  }

  function Group(sep: Token, cs: seq<Cmd>): Cmd {
    if |cs| == 1 then Seq(cs)
    else match sep case TPipe => Pipe(cs) case TAnd => And(cs) case TOr => Or(cs) case _ => Seq(cs)
  }

  function CanonAll(cs: seq<Cmd>): (r: seq<Cmd>)
    ensures |r| == |cs|
    decreases cs, 1
  {
    if cs == [] then [] else [Canon(cs[0])] + CanonAll(cs[1..])
  }

  function CanonElifs(es: seq<Elif>): seq<Elif>
    decreases es, 1
  {
    if es == [] then [] else [CanonElif(es[0])] + CanonElifs(es[1..])
  }

  function CanonElif(e: Elif): Elif
    decreases e, 0
  {
    Elif(Canon(e.cond), Canon(e.body))
  }

  function CanonElse(e: Option<Cmd>): Option<Cmd>
    decreases e, 0
  {
    if e.Some? then Some(Canon(e.value)) else None
  }

  // ----- parsing the tokens of a command -----

  predicate EndsCommand(t: Token) { t in {TSemi, TPipe, TAnd, TOr, TClose} }

  /** No word, assignment or redirection follows. */
  predicate Stops(rest: seq<Token>) { rest == [] || EndsCommand(rest[0]) }

  predicate StopsOrRedir(rest: seq<Token>) { Stops(rest) || rest[0].TRedir? }

  lemma {:induction false} TakeWordsAll(ws: seq<Word>, rest: seq<Token>)
    requires rest != [] ==> !rest[0].TWord?
    ensures TakeWords(WordTokens(ws) + rest) == (ws, rest)
  {
    var ts := WordTokens(ws) + rest;
    if ws == [] {
      assert ts == rest;
    } else {
      TakeWordsAll(ws[1..], rest);
      assert ts[0] == TWord(ws[0]) && ts[1..] == WordTokens(ws[1..]) + rest;
      assert [ws[0]] + ws[1..] == ws;
    }
  }

  lemma Skip(a: seq<Token>, b: seq<Token>)
    ensures a <= a + b && (a + b)[|a|..] == b && Expect(a + b, a) == Some(b)
  {
  }

  // One lemma for each production, over any tokens that its parts parse from.

  lemma StepDo(x: seq<Token>, d: Cmd, rest: seq<Token>)
    requires ParseCmd(x) == Some((d, [TSemi, Plain("done")] + rest))
    ensures ParseDo([TSemi, Plain("do")] + x) == Some((d, rest))
  {
    hide ParseCmd;
    Skip([TSemi, Plain("do")], x);
    Skip([TSemi, Plain("done")], rest);
  }

  lemma StepLoop(x: seq<Token>, a: Cmd, y: seq<Token>, d: Cmd, rest: seq<Token>)
    requires ParseCmd(x) == Some((a, [TSemi, Plain("do")] + y))
    requires ParseCmd(y) == Some((d, [TSemi, Plain("done")] + rest))
    ensures ParseLoop(x) == Some((a, d, rest))
  {
    hide ParseCmd;
    StepDo(y, d, rest);
  }

  lemma StepFor(n: string, ws: seq<Word>, x: seq<Token>, d: Cmd, rest: seq<Token>)
    requires NameChars(n) && ParseCmd(x) == Some((d, [TSemi, Plain("done")] + rest))
    ensures ParseFor([Plain(n), Plain("in")] + (WordTokens(ws) + ([TSemi, Plain("do")] + x)))
      == Some((For(n, ws, d), rest))
  {
    hide ParseCmd;
    StepDo(x, d, rest);
    TakeWordsAll(ws, [TSemi, Plain("do")] + x);
    Skip([Plain(n), Plain("in")], WordTokens(ws) + ([TSemi, Plain("do")] + x));
  }

  lemma StepFi(rest: seq<Token>)
    ensures ParseIfTail([TSemi, Plain("fi")] + rest) == Some(([], None, rest))
  {
    Skip([TSemi, Plain("fi")], rest);
  }

  lemma StepElse(x: seq<Token>, e: Cmd, rest: seq<Token>)
    requires ParseCmd(x) == Some((e, [TSemi, Plain("fi")] + rest))
    ensures ParseIfTail([TSemi, Plain("else")] + x) == Some(([], Some(e), rest))
  {
    hide ParseCmd;
    Skip([TSemi, Plain("else")], x);
    Skip([TSemi, Plain("fi")], rest);
    assert ([TSemi, Plain("else")] + x)[1] == Plain("else");
  }

  function AddElif(e: Elif, r: Option<(seq<Elif>, Option<Cmd>, seq<Token>)>):
    Option<(seq<Elif>, Option<Cmd>, seq<Token>)>
  {
    if r.None? then None else Some(([e] + r.value.0, r.value.1, r.value.2))
  }

  lemma StepElif(x: seq<Token>, a: Cmd, y: seq<Token>, b: Cmd, tail: seq<Token>)
    requires ParseCmd(x) == Some((a, [TSemi, Plain("then")] + y)) && ParseCmd(y) == Some((b, tail))
    ensures ParseIfTail([TSemi, Plain("elif")] + x) == AddElif(Elif(a, b), ParseIfTail(tail))
  {
    hide ParseCmd;
    Skip([TSemi, Plain("elif")], x);
    Skip([TSemi, Plain("then")], y);
    assert ([TSemi, Plain("elif")] + x)[1] == Plain("elif");
  }

  lemma StepIf(x: seq<Token>, i: Cmd, y: seq<Token>, t: Cmd, tail: seq<Token>,
               es: seq<Elif>, e: Option<Cmd>, rest: seq<Token>)
    requires ParseCmd(x) == Some((i, [TSemi, Plain("then")] + y)) && ParseCmd(y) == Some((t, tail))
    requires ParseIfTail(tail) == Some((es, e, rest))
    ensures ParseCore([Plain("if")] + x) == Some((If(i, t, es, e), rest))
  {
    hide ParseCmd, ParseIfTail;
    Skip([Plain("if")], x);
    Skip([TSemi, Plain("then")], y);
  }

  lemma StepLast(x: seq<Token>, c: Cmd, sep: Token, rest: seq<Token>)
    requires ParseCmd(x) == Some((c, [TSemi, TClose] + rest))
    ensures ParseList(x, sep) == Some(([c], rest))
    ensures ParseGroup(x) == Some((Seq([c]), rest))
  {
    hide ParseCmd;
    Skip([TSemi, TClose], rest);
  }

  lemma StepMore(x: seq<Token>, c: Cmd, sep: Token, y: seq<Token>, more: seq<Cmd>, rest: seq<Token>)
    requires IsSep(sep) && y != [] && y[0] != TClose
    requires ParseCmd(x) == Some((c, [sep] + y)) && ParseList(y, sep) == Some((more, rest))
    requires more != []
    ensures ParseList(x, sep) == Some(([c] + more, rest))
    ensures ParseGroup(x) == Some((Group(sep, [c] + more), rest))
  {
    hide ParseCmd;
    Skip([sep], y);
    assert ([sep] + y)[1] == y[0];
  }

  /** The main step: the tokens of a command in front of a stopping token parse as the
      command's meaning, and redirections that follow are applied to it. */
  lemma {:induction false} ParseTokens(c: Cmd, rest: seq<Token>)
    requires WellFormed(c) && StopsOrRedir(rest)
    ensures ParseCmd(Tokens(c) + rest) == Some(ParseRedirs(Canon(c), rest))
    decreases c, 2
  {
    if c.Redirect? {
      var tail := [TRedir(c.redir)] + rest;
      ParseTokens(c.cmd, tail);
      assert Tokens(c) + rest == Tokens(c.cmd) + tail;
      assert tail[1..] == rest;
    } else {
      ParseCoreTokens(c, rest);
    }
  }

  lemma ParseStop(c: Cmd, rest: seq<Token>)
    requires WellFormed(c) && Stops(rest)
    ensures ParseCmd(Tokens(c) + rest) == Some((Canon(c), rest))
    decreases c, 3
  {
    ParseTokens(c, rest);
  }

  lemma ParseCoreTokens(c: Cmd, rest: seq<Token>)
    requires WellFormed(c) && !c.Redirect? && StopsOrRedir(rest)
    ensures ParseCore(Tokens(c) + rest) == Some((Canon(c), rest))
    decreases c, 1
  {
    match c
    case Simple(ws) => ParseSimple(ws, rest);
    case Def(n, v) => Skip([TAssign(n, v)], rest);
    case ExDef(n, v) => Skip([Plain("export"), TAssign(n, v)], rest);
    case DefSub(n, ws) => Skip([TAssignSub(n, ws)], rest);
    case Pipe(cs) => ParseGroupTokens(cs, TPipe, rest);
    case And(cs) => ParseGroupTokens(cs, TAnd, rest);
    case Or(cs) => ParseGroupTokens(cs, TOr, rest);
    case Seq(cs) => ParseGroupTokens(cs, TSemi, rest);
    case While(a, d) =>
      ParseStop(a, DoTokens(Tokens(d)) + rest);
      ParseStop(d, [TSemi, Plain("done")] + rest);
      ParseLoopTokens("while", a, d, rest);
    case Until(a, d) =>
      ParseStop(a, DoTokens(Tokens(d)) + rest);
      ParseStop(d, [TSemi, Plain("done")] + rest);
      ParseLoopTokens("until", a, d, rest);
    case For(n, ws, d) => ParseForTokens(n, ws, d, rest);
    case If(_, _, _, _) => ParseIfTokens(c, rest);
  }

  lemma ParseSimple(ws: seq<Word>, rest: seq<Token>)
    requires CommandWords(ws) && StopsOrRedir(rest)
    ensures ParseCore(WordTokens(ws) + rest) == Some((Simple(ws), rest))
  {
    hide ParseCmd;
    var ts := WordTokens(ws) + rest;
    assert ts[0] == TWord(ws[0]);
    TakeWordsAll(ws, rest);
    if |ts| > 1 {
      assert ts[1] == if |ws| == 1 then rest[0] else TWord(ws[1]);
    }
  }

  lemma {:induction false} ParseListTokens(cs: seq<Cmd>, sep: Token, rest: seq<Token>)
    requires cs != [] && AllWellFormed(cs) && IsSep(sep)
    ensures var ts := ListTokens(cs, sep) + ([TSemi, TClose] + rest);
      && ParseList(ts, sep) == Some((CanonAll(cs), rest))
      && ParseGroup(ts) == Some((Group(sep, CanonAll(cs)), rest))
    decreases cs, 4
  {
    var end := [TSemi, TClose] + rest;
    ListIs(cs, sep, "");
    assert CanonAll(cs) == if |cs| == 1 then [Canon(cs[0])] else [Canon(cs[0])] + CanonAll(cs[1..]);
    hide ParseCmd, ParseList, ParseGroup, Tokens, ListTokens, Canon, CanonAll, CmdTexts, Join;
    if |cs| == 1 {
      ParseStop(cs[0], end);
      StepLast(Tokens(cs[0]) + end, Canon(cs[0]), sep, rest);
    } else {
      var y := ListTokens(cs[1..], sep) + end;
      ParseStop(cs[0], [sep] + y);
      ParseListTokens(cs[1..], sep, rest);
      ListIs(cs[1..], sep, "");
      FirstToken(cs[1]);
      assert y[0] == Tokens(cs[1..][0])[0];
      StepMore(Tokens(cs[0]) + ([sep] + y), Canon(cs[0]), sep, y, CanonAll(cs[1..]), rest);
      LoopRegroup(Tokens(cs[0]), [sep], ListTokens(cs[1..], sep), end);
    }
  }

  lemma FirstToken(c: Cmd)
    requires WellFormed(c)
    ensures Tokens(c) != [] && Tokens(c)[0] != TClose
    decreases c
  {
    if c.Redirect? { FirstToken(c.cmd); }
  }

  lemma ParseGroupTokens(cs: seq<Cmd>, sep: Token, rest: seq<Token>)
    requires cs != [] && AllWellFormed(cs) && IsSep(sep)
    ensures ParseCore([TOpen] + ListTokens(cs, sep) + [TSemi, TClose] + rest)
      == Some((Group(sep, CanonAll(cs)), rest))
    decreases cs, 5
  {
    hide ParseCmd, ParseGroup, ParseList;
    ParseListTokens(cs, sep, rest);
    var inner := ListTokens(cs, sep) + ([TSemi, TClose] + rest);
    assert [TOpen] + ListTokens(cs, sep) + [TSemi, TClose] + rest == [TOpen] + inner;
    Skip([TOpen], inner);
  }

  lemma ParseLoopTokens(k: string, a: Cmd, d: Cmd, rest: seq<Token>)
    requires k == "while" || k == "until"
    requires ParseCmd(Tokens(a) + (DoTokens(Tokens(d)) + rest)) == Some((Canon(a), DoTokens(Tokens(d)) + rest))
    requires ParseCmd(Tokens(d) + ([TSemi, Plain("done")] + rest))
             == Some((Canon(d), [TSemi, Plain("done")] + rest))
    ensures ParseCore([Plain(k)] + Tokens(a) + DoTokens(Tokens(d)) + rest)
      == Some((if k == "while" then While(Canon(a), Canon(d)) else Until(Canon(a), Canon(d)), rest))
  {
    hide ParseCmd, ParseLoop, Tokens, Canon;
    var y := Tokens(d) + ([TSemi, Plain("done")] + rest);
    DoRegroup(Tokens(d), rest);
    var inner := Tokens(a) + (DoTokens(Tokens(d)) + rest);
    LoopRegroup([Plain(k)], Tokens(a), DoTokens(Tokens(d)), rest);
    hide DoTokens;
    StepLoop(inner, Canon(a), y, Canon(d), rest);
    Skip([Plain(k)], inner);
  }

  lemma DoRegroup(d: seq<Token>, rest: seq<Token>)
    ensures DoTokens(d) + rest == [TSemi, Plain("do")] + (d + ([TSemi, Plain("done")] + rest))
  {
  }

  lemma LoopRegroup(k: seq<Token>, a: seq<Token>, d: seq<Token>, rest: seq<Token>)
    ensures k + a + d + rest == k + (a + (d + rest))
  {
  }

  lemma ParseForTokens(n: string, ws: seq<Word>, d: Cmd, rest: seq<Token>)
    requires NameChars(n) && WellFormed(d)
    ensures ParseCore([Plain("for"), Plain(n), Plain("in")] + WordTokens(ws) + DoTokens(Tokens(d)) + rest)
      == Some((For(n, ws, Canon(d)), rest))
    decreases d, 4
  {
    hide ParseCmd, ParseFor;
    var x := Tokens(d) + ([TSemi, Plain("done")] + rest);
    ParseStop(d, [TSemi, Plain("done")] + rest);
    StepFor(n, ws, x, Canon(d), rest);
    var inner := [Plain(n), Plain("in")] + (WordTokens(ws) + ([TSemi, Plain("do")] + x));
    assert [Plain("for"), Plain(n), Plain("in")] + WordTokens(ws) + DoTokens(Tokens(d)) + rest
      == [Plain("for")] + inner;
    Skip([Plain("for")], inner);
  }

  lemma ParseElseTokens(e: Option<Cmd>, rest: seq<Token>)
    requires e.Some? ==> WellFormed(e.value)
    ensures ParseIfTail(ElseTokens(e) + ([TSemi, Plain("fi")] + rest)) == Some(([], CanonElse(e), rest))
    decreases e, 0
  {
    hide ParseCmd, ParseIfTail;
    var fi := [TSemi, Plain("fi")] + rest;
    if e.Some? {
      ParseStop(e.value, fi);
      StepElse(Tokens(e.value) + fi, Canon(e.value), rest);
      assert ElseTokens(e) + fi == [TSemi, Plain("else")] + (Tokens(e.value) + fi);
    } else {
      StepFi(rest);
      assert ElseTokens(e) + fi == fi;
    }
  }

  lemma ParseElifTokens(e: Elif, tail: seq<Token>)
    requires ElifWellFormed(e) && Stops(tail)
    ensures ParseIfTail(OneElifTokens(e) + tail) == AddElif(CanonElif(e), ParseIfTail(tail))
    decreases e, 0
  {
    hide ParseCmd, ParseIfTail;
    var y := Tokens(e.body) + tail;
    var x := Tokens(e.cond) + ([TSemi, Plain("then")] + y);
    ParseStop(e.cond, [TSemi, Plain("then")] + y);
    ParseStop(e.body, tail);
    StepElif(x, Canon(e.cond), y, Canon(e.body), tail);
    assert OneElifTokens(e) + tail == [TSemi, Plain("elif")] + x;
  }

  lemma {:induction false} ParseElifsTokens(es: seq<Elif>, tail: seq<Token>, e: Option<Cmd>, rest: seq<Token>)
    requires ElifsWellFormed(es) && Stops(tail)
    requires ParseIfTail(tail) == Some(([], e, rest))
    ensures ParseIfTail(ElifTokens(es) + tail) == Some((CanonElifs(es), e, rest))
    decreases es, 4
  {
    hide ParseCmd, ParseIfTail;
    if es == [] {
      assert ElifTokens(es) + tail == tail;
    } else {
      ParseElifsTokens(es[1..], tail, e, rest);
      var tail' := ElifTokens(es[1..]) + tail;
      assert Stops(tail') by { if es[1..] != [] { assert tail'[0] == TSemi; } else { assert tail' == tail; } }
      ParseElifTokens(es[0], tail');
      assert ElifTokens(es) + tail == OneElifTokens(es[0]) + tail';
    }
  }

  lemma ParseIfTokens(c: Cmd, rest: seq<Token>)
    requires c.If? && WellFormed(c)
    ensures ParseCore(Tokens(c) + rest) == Some((Canon(c), rest))
    decreases c, 0
  {
    hide ParseCmd, ParseIfTail, ParseCore;
    var If(i, t, es, e) := c;
    var fi := [TSemi, Plain("fi")] + rest;
    ParseElseTokens(e, rest);
    var tail' := ElseTokens(e) + fi;
    assert tail'[0] == TSemi;
    ParseElifsTokens(es, tail', CanonElse(e), rest);
    var tail := ElifTokens(es) + tail';
    assert tail[0] == TSemi;
    ParseStop(t, tail);
    var y := Tokens(t) + tail;
    ParseStop(i, [TSemi, Plain("then")] + y);
    var x := Tokens(i) + ([TSemi, Plain("then")] + y);
    StepIf(x, Canon(i), y, Canon(t), tail, CanonElifs(es), CanonElse(e), rest);
    IfRegroup(Tokens(i), Tokens(t), ElifTokens(es), ElseTokens(e), rest);
  }

  lemma IfRegroup(i: seq<Token>, t: seq<Token>, es: seq<Token>, e: seq<Token>, rest: seq<Token>)
    ensures [Plain("if")] + i + [TSemi, Plain("then")] + t + es + e + [TSemi, Plain("fi")] + rest
      == [Plain("if")] + (i + ([TSemi, Plain("then")] + (t + (es + (e + ([TSemi, Plain("fi")] + rest))))))
  {
  }

  // ----- main results -----

  lemma WellFormedPrints(c: Cmd)
    requires WellFormed(c)
    ensures CmdPrints(c)
    decreases c, 0
  {
    match c
    case Redirect(w, r) => WellFormedPrints(w);
    case Pipe(cs) => AllWellFormedPrint(cs);
    case And(cs) => AllWellFormedPrint(cs);
    case Or(cs) => AllWellFormedPrint(cs);
    case Seq(cs) => AllWellFormedPrint(cs);
    case While(a, d) => WellFormedPrints(a); WellFormedPrints(d);
    case Until(a, d) => WellFormedPrints(a); WellFormedPrints(d);
    case For(_, _, d) => WellFormedPrints(d);
    case If(i, t, es, e) =>
      WellFormedPrints(i);
      WellFormedPrints(t);
      ElifsWellFormedPrint(es);
      if e.Some? { WellFormedPrints(e.value); }
    case _ =>
  }

  lemma AllWellFormedPrint(cs: seq<Cmd>)
    requires AllWellFormed(cs)
    ensures CmdsPrint(cs)
    decreases cs, 1
  {
    if cs != [] {
      WellFormedPrints(cs[0]);
      AllWellFormedPrint(cs[1..]);
    }
  }

  lemma ElifsWellFormedPrint(es: seq<Elif>)
    requires ElifsWellFormed(es)
    ensures ElifsPrint(es)
    decreases es, 1
  {
    if es != [] {
      ElifWellFormedPrints(es[0]);
      ElifsWellFormedPrint(es[1..]);
    }
  }

  lemma ElifWellFormedPrints(e: Elif)
    requires ElifWellFormed(e)
    ensures ElifPrints(e)
    decreases e, 0
  {
    WellFormedPrints(e.cond);
    WellFormedPrints(e.body);
  }

  /** Every well-formed tree prints, and its text parses as the tree it stands for. */
  lemma RoundTrip(c: Cmd)
    requires WellFormed(c)
    ensures ToString(c) == Printed(CmdText(c))
    ensures Parse(CmdText(c)) == Some(Canon(c))
  {
    hide CmdText, Tokens, Canon, ParseCmd;
    WellFormedPrints(c);
    LexesCmd(c);
    LexesWhole(CmdText(c), Tokens(c));
    ParseStop(c, []);
    assert Tokens(c) + [] == Tokens(c);
  }

  lemma LexesWhole(s: string, ts: seq<Token>)
    requires Lexes(s, ts)
    ensures Lex(s) == Some(ts)
  {
    assert LexesBefore(s, ts, "");
    assert s + "" == s && ts + [] == ts;
  }

  // Printing forgets nothing but the operator of one-command groups.

  lemma CanonText(c: Cmd)
    ensures CmdText(Canon(c)) == CmdText(c)
    decreases c, 0
  {
    match c
    case Redirect(w, _) => CanonText(w);
    case Pipe(cs) => CanonTexts(cs); GroupText(TPipe, CanonAll(cs));
    case And(cs) => CanonTexts(cs); GroupText(TAnd, CanonAll(cs));
    case Or(cs) => CanonTexts(cs); GroupText(TOr, CanonAll(cs));
    case Seq(cs) => CanonTexts(cs);
    case While(a, d) => CanonText(a); CanonText(d);
    case Until(a, d) => CanonText(a); CanonText(d);
    case For(_, _, d) => CanonText(d);
    case If(i, t, es, e) =>
      CanonText(i);
      CanonText(t);
      CanonElifsText(es);
      if e.Some? { CanonText(e.value); }
      assert ElseText(CanonElse(e)) == ElseText(e);
    case _ =>
  }

  lemma GroupText(sep: Token, cs: seq<Cmd>)
    requires IsSep(sep)
    ensures CmdText(Group(sep, cs)) == Braced(CmdTexts(cs), SepText(sep))
  {
  }

  lemma CanonTexts(cs: seq<Cmd>)
    ensures CmdTexts(CanonAll(cs)) == CmdTexts(cs)
    decreases cs, 1
  {
    if cs != [] {
      CanonText(cs[0]);
      CanonTexts(cs[1..]);
      assert CanonAll(cs)[1..] == CanonAll(cs[1..]);
    }
  }

  lemma CanonElifsText(es: seq<Elif>)
    ensures ElifsText(CanonElifs(es)) == ElifsText(es)
    decreases es, 1
  {
    if es != [] {
      CanonElifText(es[0]);
      CanonElifsText(es[1..]);
      assert CanonElifs(es)[1..] == CanonElifs(es[1..]);
    }
  }

  lemma CanonElifText(e: Elif)
    ensures ElifText(CanonElif(e)) == ElifText(e)
    decreases e, 0
  {
    CanonText(e.cond);
    CanonText(e.body);
  }

  /** Two well-formed trees print alike exactly when they stand for the same tree. */
  lemma PrintsAlikeIff(c: Cmd, d: Cmd)
    requires WellFormed(c) && WellFormed(d)
    ensures ToString(c) == ToString(d) <==> Canon(c) == Canon(d)
  {
    RoundTrip(c);
    RoundTrip(d);
    CanonText(c);
    CanonText(d);
  }

  /** So for every command a pipe of it alone and a sequence of it alone are different trees
      that print alike, and parsing returns the sequence. */
  lemma PipeOfOnePrintsAsSequence(c: Cmd)
    requires WellFormed(c)
    ensures WellFormed(Pipe([c])) && WellFormed(Seq([c])) && Pipe([c]) != Seq([c])
    ensures ToString(Pipe([c])) == ToString(Seq([c]))
    ensures Parse(CmdText(Pipe([c]))) == Some(Seq([Canon(c)]))
  {
    assert [c][1..] == [] && AllWellFormed([c][1..]);
    assert WellFormed(Pipe([c])) && WellFormed(Seq([c]));
    assert CanonAll([c]) == [Canon(c)] by { assert CanonAll([c][1..]) == []; }
    RoundTrip(Pipe([c]));
    PrintsAlikeIff(Pipe([c]), Seq([c]));
  }
}
