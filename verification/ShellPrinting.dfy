/** The tokens a well-formed shell tree stands for, and the proof that its printed text
    is recognised as exactly those tokens. */
module ShellPrinting {
  import opened Text
  import opened ShellCmd
  import opened ShellParser
  import opened ShellLexing

  ghost predicate WellFormed(c: Cmd)
    decreases c, 0
  {
    match c
    case Simple(ws) => CommandWords(ws)
    case Def(n, v) => NameChars(n) && ValueOk(v)
    case ExDef(n, v) => NameChars(n) && ValueOk(v)
    case DefSub(n, ws) => NameChars(n) && SubstWords(ws)
    case Redirect(w, r) => WellFormed(w) && RedirOk(r)
    case Pipe(cs) => cs != [] && AllWellFormed(cs)
    case And(cs) => cs != [] && AllWellFormed(cs)
    case Or(cs) => cs != [] && AllWellFormed(cs)
    case Seq(cs) => cs != [] && AllWellFormed(cs)
    case While(a, d) => WellFormed(a) && WellFormed(d)
    case Until(a, d) => WellFormed(a) && WellFormed(d)
    case For(n, ws, d) => NameChars(n) && WordsOk(ws) && WellFormed(d)
    case If(i, t, es, e) =>
      WellFormed(i) && WellFormed(t) && ElifsWellFormed(es) && (e.Some? ==> WellFormed(e.value))
  }

  ghost predicate AllWellFormed(cs: seq<Cmd>)
    decreases cs, 1
  {
    cs == [] || (WellFormed(cs[0]) && AllWellFormed(cs[1..]))
  }

  ghost predicate ElifsWellFormed(es: seq<Elif>)
    decreases es, 1
  {
    es == [] || (ElifWellFormed(es[0]) && ElifsWellFormed(es[1..]))
  }

  ghost predicate ElifWellFormed(e: Elif)
    decreases e, 0
  {
    WellFormed(e.cond) && WellFormed(e.body)
  }

  // ----- the tokens of a command -----

  function Tokens(c: Cmd): seq<Token>
    decreases c, 0
  {
    match c
    case Simple(ws) => WordTokens(ws)
    case Def(n, v) => [TAssign(n, v)]
    case ExDef(n, v) => [Plain("export"), TAssign(n, v)]
    case DefSub(n, ws) => [TAssignSub(n, ws)]
    case Redirect(w, r) => Tokens(w) + [TRedir(r)]
    case Pipe(cs) => [TOpen] + ListTokens(cs, TPipe) + [TSemi, TClose]
    case And(cs) => [TOpen] + ListTokens(cs, TAnd) + [TSemi, TClose]
    case Or(cs) => [TOpen] + ListTokens(cs, TOr) + [TSemi, TClose]
    case Seq(cs) => [TOpen] + ListTokens(cs, TSemi) + [TSemi, TClose]
    case While(a, d) => [Plain("while")] + Tokens(a) + DoTokens(Tokens(d))
    case Until(a, d) => [Plain("until")] + Tokens(a) + DoTokens(Tokens(d))
    case For(n, ws, d) => [Plain("for"), Plain(n), Plain("in")] + WordTokens(ws) + DoTokens(Tokens(d))
    case If(i, t, es, e) =>
      [Plain("if")] + Tokens(i) + [TSemi, Plain("then")] + Tokens(t) + ElifTokens(es)
      + ElseTokens(e) + [TSemi, Plain("fi")]
  }

  function DoTokens(d: seq<Token>): seq<Token> {
    [TSemi, Plain("do")] + d + [TSemi, Plain("done")]
  }

  function ListTokens(cs: seq<Cmd>, sep: Token): seq<Token>
    decreases cs, 1
  {
    if cs == [] then []
    else Tokens(cs[0]) + (if |cs| == 1 then [] else [sep] + ListTokens(cs[1..], sep))
  }

  function ElifTokens(es: seq<Elif>): seq<Token>
    decreases es, 1
  {
    if es == [] then [] else OneElifTokens(es[0]) + ElifTokens(es[1..])
  }

  function ElseTokens(e: Option<Cmd>): seq<Token>
    decreases e, 0
  {
    if e.Some? then [TSemi, Plain("else")] + Tokens(e.value) else []
  }

  function OneElifTokens(e: Elif): seq<Token>
    decreases e, 0
  {
    [TSemi, Plain("elif")] + Tokens(e.cond) + [TSemi, Plain("then")] + Tokens(e.body)
  }

  // ----- reading the text as its tokens -----

  lemma LexesKeyword(k: string, t: string, ts: seq<Token>)
    requires k != "" && BareChars(k) && Lexes(t, ts)
    ensures Lexes(k + " " + t, [Plain(k)] + ts)
  {
    hide Lexes;
    LexesPlain(k);
    LexesBlank(k, [Plain(k)], t, ts);
  }

  /** One more "; keyword command". */
  lemma LexesClause(a: string, x: seq<Token>, k: string, b: string, y: seq<Token>)
    requires Lexes(a, x) && Lexes(b, y) && k != "" && BareChars(k)
    ensures Lexes(a + ("; " + k + " " + b), x + ([TSemi, Plain(k)] + y))
  {
    hide Lexes;
    LexesKeyword(k, b, y);
    LexesSemi(a, x, k + " " + b, [Plain(k)] + y);
    assert a + "; " + (k + " " + b) == a + ("; " + k + " " + b);
    assert x + [TSemi] + ([Plain(k)] + y) == x + ([TSemi, Plain(k)] + y);
  }

  lemma LexesLast(a: string, x: seq<Token>, k: string)
    requires Lexes(a, x) && k != "" && BareChars(k)
    ensures Lexes(a + ("; " + k), x + [TSemi, Plain(k)])
  {
    hide Lexes;
    LexesPlain(k);
    LexesSemi(a, x, k, [Plain(k)]);
    assert a + "; " + k == a + ("; " + k);
    assert x + [TSemi] + [Plain(k)] == x + [TSemi, Plain(k)];
  }

  lemma LexesDo(a: string, x: seq<Token>, d: string, y: seq<Token>)
    requires Lexes(a, x) && Lexes(d, y)
    ensures Lexes(a + "; do " + d + "; done", x + DoTokens(y))
  {
    hide Lexes;
    LexesClause(a, x, "do", d, y);
    LexesLast(a + ("; " + "do" + " " + d), x + ([TSemi, Plain("do")] + y), "done");
    assert a + ("; " + "do" + " " + d) + ("; " + "done") == a + "; do " + d + "; done";
    assert x + ([TSemi, Plain("do")] + y) + [TSemi, Plain("done")] == x + DoTokens(y);
  }

  lemma LexesLoop(k: string, a: Cmd, d: Cmd)
    requires Lexes(CmdText(a), Tokens(a)) && Lexes(CmdText(d), Tokens(d))
    requires k != "" && BareChars(k)
    ensures Lexes(k + " " + CmdText(a) + "; do " + CmdText(d) + "; done",
                  [Plain(k)] + Tokens(a) + DoTokens(Tokens(d)))
  {
    hide Lexes;
    LexesKeyword(k, CmdText(a), Tokens(a));
    LexesDo(k + " " + CmdText(a), [Plain(k)] + Tokens(a), CmdText(d), Tokens(d));
  }

  lemma LexesTrailingBlank(a: string, x: seq<Token>)
    requires Lexes(a, x)
    ensures Lexes(a + " ", x)
  {
    forall rest | AtDelim(rest) ensures LexesBefore(a + " ", x, rest) {
      assert a + " " + rest == a + (" " + rest);
      assert LexesBefore(a, x, " " + rest);
      LexBlank(rest);
    }
  }

  lemma LexesThreeWords(n: string)
    requires NameChars(n)
    ensures Lexes("for " + n + " in", [Plain("for"), Plain(n), Plain("in")])
  {
    assert BareChars(n);
    hide Lexes;
    LexesPlain("in");
    LexesKeyword(n, "in", [Plain("in")]);
    LexesKeyword("for", n + " " + "in", [Plain(n)] + [Plain("in")]);
    assert "for" + " " + (n + " " + "in") == "for " + n + " in";
    assert [Plain("for")] + ([Plain(n)] + [Plain("in")]) == [Plain("for"), Plain(n), Plain("in")];
  }

  lemma LexesForHead(n: string, ws: seq<Word>)
    requires NameChars(n) && WordsOk(ws)
    ensures Lexes("for " + n + " in " + WordsText(ws),
                  [Plain("for"), Plain(n), Plain("in")] + WordTokens(ws))
  {
    hide Lexes;
    LexesThreeWords(n);
    var head, x := "for " + n + " in", [Plain("for"), Plain(n), Plain("in")];
    if ws == [] {
      LexesTrailingBlank(head, x);
      assert "for " + n + " in " + WordsText(ws) == head + " ";
      assert x + WordTokens(ws) == x;
    } else {
      LexesWords(ws);
      LexesBlank(head, x, WordsText(ws), WordTokens(ws));
      assert "for " + n + " in " + WordsText(ws) == head + " " + WordsText(ws);
    }
  }

  function SepText(sep: Token): string {
    match sep case TPipe => " | " case TAnd => " && " case TOr => " || " case _ => "; "
  }

  predicate IsSep(sep: Token) { sep in {TPipe, TAnd, TOr, TSemi} }

  lemma SeparatesSep(sep: Token)
    requires IsSep(sep)
    ensures Separates(SepText(sep), [sep])
  {
    hide Separates;
    match sep
    case TPipe => SeparatesOp("|", TPipe); assert " " + "|" + " " == SepText(sep);
    case TAnd => SeparatesOp("&&", TAnd); assert " " + "&&" + " " == SepText(sep);
    case TOr => SeparatesOp("||", TOr); assert " " + "||" + " " == SepText(sep);
    case TSemi => SeparatesSemi();
  }

  lemma LexesBraced(t: string, ts: seq<Token>)
    requires Lexes(t, ts)
    ensures Lexes("{ " + t + "; }", [TOpen] + ts + [TSemi, TClose])
  {
    hide Lexes;
    LexesOpen();
    LexesBlank("{", [TOpen], t, ts);
    LexesClose();
    LexesSemi("{" + " " + t, [TOpen] + ts, "}", [TClose]);
    assert "{" + " " + t + "; " + "}" == "{ " + t + "; }";
    assert [TOpen] + ts + [TSemi] + [TClose] == [TOpen] + ts + [TSemi, TClose];
  }

  lemma ListIs(cs: seq<Cmd>, sep: Token, s: string)
    requires cs != []
    ensures Join(CmdTexts(cs), s)
      == if |cs| == 1 then CmdText(cs[0]) else CmdText(cs[0]) + s + Join(CmdTexts(cs[1..]), s)
    ensures ListTokens(cs, sep)
      == if |cs| == 1 then Tokens(cs[0]) else Tokens(cs[0]) + [sep] + ListTokens(cs[1..], sep)
  {
    hide CmdText, Tokens;
    if |cs| > 1 {
      assert CmdTexts(cs)[1..] == CmdTexts(cs[1..]);
      PullTokens(Tokens(cs[0]), [sep], ListTokens(cs[1..], sep));
    }
  }

  lemma {:induction false} LexesList(cs: seq<Cmd>, sep: Token)
    requires cs != [] && AllWellFormed(cs) && IsSep(sep)
    ensures Lexes(Join(CmdTexts(cs), SepText(sep)), ListTokens(cs, sep))
    decreases cs, 1
  {
    ListIs(cs, sep, SepText(sep));
    hide Lexes, CmdText, Tokens, ListTokens, Join, CmdTexts;
    LexesCmd(cs[0]);
    if |cs| > 1 {
      LexesList(cs[1..], sep);
      SeparatesSep(sep);
      LexesGlue(CmdText(cs[0]), Tokens(cs[0]), SepText(sep), [sep],
                Join(CmdTexts(cs[1..]), SepText(sep)), ListTokens(cs[1..], sep));
    }
  }

  lemma Pull(a: string, b: string, c: string)
    ensures a + (b + c) == a + b + c
  {
  }

  lemma PullTokens(a: seq<Token>, b: seq<Token>, c: seq<Token>)
    ensures a + (b + c) == a + b + c
  {
  }

  // "elif" and "else" parts are printed with a leading blank and a trailing
  // semicolon; here each is one clause after the semicolon of the part before it.

  function OneElifText(e: Elif): string {
    "; elif " + CmdText(e.cond) + "; then " + CmdText(e.body)
  }

  function ElifClauses(es: seq<Elif>): string {
    if es == [] then "" else OneElifText(es[0]) + ElifClauses(es[1..])
  }

  /** Moves the semicolon from in front of a part to behind it. */
  lemma MoveSemi(x: string, x': string, y: string, y': string)
    requires ";" + x == x' + ";" && ";" + y == y' + ";"
    ensures ";" + (x + y) == x' + y' + ";"
  {
    calc {
      ";" + (x + y);
      (";" + x) + y;
      (x' + ";") + y;
      x' + (";" + y);
      x' + (y' + ";");
      x' + y' + ";";
    }
  }

  lemma Glue(a: string, b: string, t: string, c: string)
    ensures a + (b + t + c) == a + b + t + c
  {
  }

  lemma ElifRegroup(e: Elif)
    ensures ";" + ElifText(e) == OneElifText(e) + ";"
  {
    hide CmdText;
    var i, t := CmdText(e.cond), CmdText(e.body);
    Glue(";", " elif ", i, "; then " + t + ";");
    Glue(" elif " + i, "; then ", t, ";");
    Glue("; elif " + i, "; then ", t, ";");
    assert ";" + " elif " == "; elif ";
  }

  lemma {:induction false} ElifsRegroup(es: seq<Elif>)
    ensures ";" + ElifsText(es) == ElifClauses(es) + ";"
  {
    if es != [] {
      ElifRegroup(es[0]);
      ElifsRegroup(es[1..]);
      MoveSemi(ElifText(es[0]), OneElifText(es[0]), ElifsText(es[1..]), ElifClauses(es[1..]));
    }
  }

  lemma LexesTwoClauses(a: string, x: seq<Token>, k: string, i: string, y: seq<Token>,
                        l: string, t: string, z: seq<Token>)
    requires Lexes(a, x) && Lexes(i, y) && Lexes(t, z)
    requires k != "" && BareChars(k) && l != "" && BareChars(l)
    ensures Lexes(a + ("; " + k + " " + i + ("; " + l + " " + t)),
                  x + ([TSemi, Plain(k)] + y + ([TSemi, Plain(l)] + z)))
  {
    hide Lexes;
    LexesClause(a, x, k, i, y);
    LexesClause(a + ("; " + k + " " + i), x + ([TSemi, Plain(k)] + y), l, t, z);
    var p, q := "; " + k + " " + i, "; " + l + " " + t;
    assert a + p + q == a + (p + q);
    var m, n := [TSemi, Plain(k)] + y, [TSemi, Plain(l)] + z;
    assert x + m + n == x + (m + n);
  }

  lemma LexesOneElif(a: string, x: seq<Token>, e: Elif)
    requires Lexes(a, x) && ElifWellFormed(e)
    ensures Lexes(a + OneElifText(e), x + OneElifTokens(e))
    decreases e, 0
  {
    hide Lexes, CmdText, Tokens;
    LexesCmd(e.cond);
    LexesCmd(e.body);
    var i, t := CmdText(e.cond), CmdText(e.body);
    LexesTwoClauses(a, x, "elif", i, Tokens(e.cond), "then", t, Tokens(e.body));
    assert "; " + "elif" + " " == "; elif " && "; " + "then" + " " == "; then ";
    Pull("; elif " + i, "; then ", t);
    PullTokens([TSemi, Plain("elif")] + Tokens(e.cond), [TSemi, Plain("then")], Tokens(e.body));
  }

  lemma {:induction false} LexesElifs(a: string, x: seq<Token>, es: seq<Elif>)
    requires Lexes(a, x) && ElifsWellFormed(es)
    ensures Lexes(a + ElifClauses(es), x + ElifTokens(es))
    decreases es, 1
  {
    hide Lexes;
    if es == [] {
      assert a + ElifClauses(es) == a;
      assert x + ElifTokens(es) == x;
    } else {
      LexesOneElif(a, x, es[0]);
      LexesElifs(a + OneElifText(es[0]), x + OneElifTokens(es[0]), es[1..]);
      assert a + OneElifText(es[0]) + ElifClauses(es[1..]) == a + ElifClauses(es);
      assert x + OneElifTokens(es[0]) + ElifTokens(es[1..]) == x + ElifTokens(es);
    }
  }

  function ElseClause(e: Option<Cmd>): string {
    if e.Some? then "; else " + CmdText(e.value) else ""
  }

  lemma LexesElse(a: string, x: seq<Token>, e: Option<Cmd>)
    requires Lexes(a, x) && (e.Some? ==> WellFormed(e.value))
    ensures Lexes(a + ElseClause(e), x + ElseTokens(e))
    decreases e, 0
  {
    hide Lexes;
    if e.Some? {
      LexesCmd(e.value);
      LexesClause(a, x, "else", CmdText(e.value), Tokens(e.value));
      assert "; " + "else" + " " + CmdText(e.value) == ElseClause(e);
    } else {
      assert a + ElseClause(e) == a && x + ElseTokens(e) == x;
    }
  }

  lemma ElseRegroup(e: Option<Cmd>)
    ensures ";" + ElseText(e) == ElseClause(e) + ";"
  {
    hide CmdText;
    if e.Some? {
      Glue(";", " else ", CmdText(e.value), ";");
      assert ";" + " else " == "; else ";
    }
  }

  lemma AroundSemi(head: string, x: string, y: string, x': string, y': string)
    requires ";" + (x + y) == x' + y' + ";"
    ensures head + ";" + x + y + " fi" == head + x' + y' + "; fi"
  {
    calc {
      head + ";" + x + y + " fi";
      head + (";" + (x + y)) + " fi";
      head + (x' + y' + ";") + " fi";
      head + x' + y' + "; fi";
    }
  }

  lemma IfRegroup(c: Cmd)
    requires c.If?
    ensures CmdText(c) == "if " + CmdText(c.cond) + "; then " + CmdText(c.body)
                          + ElifClauses(c.elifs) + ElseClause(c.otherwise) + "; fi"
  {
    ElifsRegroup(c.elifs);
    ElseRegroup(c.otherwise);
    MoveSemi(ElifsText(c.elifs), ElifClauses(c.elifs), ElseText(c.otherwise), ElseClause(c.otherwise));
    AroundSemi("if " + CmdText(c.cond) + "; then " + CmdText(c.body), ElifsText(c.elifs),
               ElseText(c.otherwise), ElifClauses(c.elifs), ElseClause(c.otherwise));
  }

  lemma LexesIf(c: Cmd)
    requires c.If? && WellFormed(c)
    ensures Lexes(CmdText(c), Tokens(c))
    decreases c, 0
  {
    var If(i, t, es, e) := c;
    IfTokens(c);
    assert WellFormed(i) && WellFormed(t) && ElifsWellFormed(es) && (e.Some? ==> WellFormed(e.value));
    hide Lexes, CmdText, Tokens, WellFormed, ElifClauses, ElseClause, ElifTokens, ElseTokens;
    LexesCmd(i);
    LexesCmd(t);
    LexesKeyword("if", CmdText(i), Tokens(i));
    var a, x := "if" + " " + CmdText(i), [Plain("if")] + Tokens(i);
    LexesClause(a, x, "then", CmdText(t), Tokens(t));
    assert "if" + " " == "if " && "; " + "then" + " " == "; then " && "; " + "fi" == "; fi";
    Pull(a, "; then ", CmdText(t));
    PullTokens(x, [TSemi, Plain("then")], Tokens(t));
    var b, y := a + "; then " + CmdText(t), x + [TSemi, Plain("then")] + Tokens(t);
    LexesElifs(b, y, es);
    LexesElse(b + ElifClauses(es), y + ElifTokens(es), e);
    LexesLast(b + ElifClauses(es) + ElseClause(e), y + ElifTokens(es) + ElseTokens(e), "fi");
    IfRegroup(c);
  }

  lemma IfTokens(c: Cmd)
    requires c.If?
    ensures Tokens(c) == [Plain("if")] + Tokens(c.cond) + [TSemi, Plain("then")] + Tokens(c.body)
      + ElifTokens(c.elifs) + ElseTokens(c.otherwise) + [TSemi, Plain("fi")]
  {
  }

  lemma LexesExport(n: string, v: Word)
    requires Lexes(n + "=" + WordText(v), [TAssign(n, v)])
    ensures Lexes(CmdText(ExDef(n, v)), Tokens(ExDef(n, v)))
  {
    hide Lexes;
    LexesKeyword("export", n + "=" + WordText(v), [TAssign(n, v)]);
    assert "export" + " " + (n + "=" + WordText(v)) == CmdText(ExDef(n, v));
    assert [Plain("export")] + [TAssign(n, v)] == Tokens(ExDef(n, v));
  }

  lemma LexesRedirect(w: Cmd, r: Redir)
    requires Lexes(CmdText(w), Tokens(w)) && RedirOk(r)
    ensures Lexes(CmdText(Redirect(w, r)), Tokens(Redirect(w, r)))
  {
    hide Lexes;
    LexesRedir(r);
    LexesBlank(CmdText(w), Tokens(w), RedirText(r), [TRedir(r)]);
  }

  lemma LoopIs(a: Cmd, d: Cmd)
    ensures CmdText(While(a, d)) == "while" + " " + CmdText(a) + "; do " + CmdText(d) + "; done"
    ensures CmdText(Until(a, d)) == "until" + " " + CmdText(a) + "; do " + CmdText(d) + "; done"
    ensures Tokens(While(a, d)) == [Plain("while")] + Tokens(a) + DoTokens(Tokens(d))
    ensures Tokens(Until(a, d)) == [Plain("until")] + Tokens(a) + DoTokens(Tokens(d))
  {
    hide DoTokens;
    assert "while" + " " == "while " && "until" + " " == "until ";
  }

  lemma LexesWhile(a: Cmd, d: Cmd)
    requires Lexes(CmdText(a), Tokens(a)) && Lexes(CmdText(d), Tokens(d))
    ensures Lexes(CmdText(While(a, d)), Tokens(While(a, d)))
    ensures Lexes(CmdText(Until(a, d)), Tokens(Until(a, d)))
  {
    hide Lexes, CmdText, Tokens, DoTokens;
    LoopIs(a, d);
    LexesLoop("while", a, d);
    LexesLoop("until", a, d);
  }

  lemma LexesFor(n: string, ws: seq<Word>, d: Cmd)
    requires WellFormed(For(n, ws, d)) && Lexes(CmdText(d), Tokens(d))
    ensures Lexes(CmdText(For(n, ws, d)), Tokens(For(n, ws, d)))
  {
    hide Lexes;
    LexesForHead(n, ws);
    LexesDo("for " + n + " in " + WordsText(ws), [Plain("for"), Plain(n), Plain("in")] + WordTokens(ws),
            CmdText(d), Tokens(d));
  }

  lemma LexesGroup(c: Cmd)
    requires WellFormed(c) && (c.Pipe? || c.And? || c.Or? || c.Seq?)
    ensures Lexes(CmdText(c), Tokens(c))
    decreases c, 1
  {
    hide Lexes;
    match c
    case Pipe(cs) => LexesList(cs, TPipe); LexesBraced(Join(CmdTexts(cs), " | "), ListTokens(cs, TPipe));
    case And(cs) => LexesList(cs, TAnd); LexesBraced(Join(CmdTexts(cs), " && "), ListTokens(cs, TAnd));
    case Or(cs) => LexesList(cs, TOr); LexesBraced(Join(CmdTexts(cs), " || "), ListTokens(cs, TOr));
    case Seq(cs) => LexesList(cs, TSemi); LexesBraced(Join(CmdTexts(cs), "; "), ListTokens(cs, TSemi));
  }

  lemma {:induction false} LexesCmd(c: Cmd)
    requires WellFormed(c)
    ensures Lexes(CmdText(c), Tokens(c))
    decreases c, 2
  {
    hide Lexes;
    match c
    case Simple(ws) => LexesWords(ws);
    case Def(n, v) => LexesAssign(n, v);
    case ExDef(n, v) => LexesAssign(n, v); LexesExport(n, v);
    case DefSub(n, ws) => LexesAssignSub(n, ws);
    case Redirect(w, r) => LexesCmd(w); LexesRedirect(w, r);
    case While(a, d) => LexesCmd(a); LexesCmd(d); LexesWhile(a, d);
    case Until(a, d) => LexesCmd(a); LexesCmd(d); LexesWhile(a, d);
    case For(n, ws, d) => LexesCmd(d); LexesFor(n, ws, d);
    case If(_, _, _, _) => LexesIf(c);
    case _ => LexesGroup(c);
  }
}
