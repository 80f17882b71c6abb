/** When the convenience constructors build trees that read back as meant. */
module ShellBuilding {
  import opened Text
  import opened ShellCmd
  import opened ShellParser
  import opened ShellLexing
  import opened ShellPrinting
  import opened ShellRoundTrip

  // ----- exact round trips -----

  /** No pipe, "and" or "or" group of a single command. */
  ghost predicate Plural(c: Cmd)
    decreases c, 0
  {
    match c
    case Redirect(w, _) => Plural(w)
    case Pipe(cs) => |cs| != 1 && AllPlural(cs)
    case And(cs) => |cs| != 1 && AllPlural(cs)
    case Or(cs) => |cs| != 1 && AllPlural(cs)
    case Seq(cs) => AllPlural(cs)
    case While(a, d) => Plural(a) && Plural(d)
    case Until(a, d) => Plural(a) && Plural(d)
    case For(_, _, d) => Plural(d)
    case If(i, t, es, e) => Plural(i) && Plural(t) && ElifsPlural(es) && (e.Some? ==> Plural(e.value))
    case _ => true
  }

  ghost predicate AllPlural(cs: seq<Cmd>)
    decreases cs, 1
  {
    cs == [] || (Plural(cs[0]) && AllPlural(cs[1..]))
  }

  ghost predicate ElifsPlural(es: seq<Elif>)
    decreases es, 1
  {
    es == [] || (ElifPlural(es[0]) && ElifsPlural(es[1..]))
  }

  ghost predicate ElifPlural(e: Elif)
    decreases e, 0
  {
    Plural(e.cond) && Plural(e.body)
  }

  lemma CanonIsSame(c: Cmd)
    ensures Canon(c) == c <==> Plural(c)
    decreases c, 0
  {
    match c
    case Redirect(w, _) => CanonIsSame(w);
    case Pipe(cs) => CanonAllIsSame(cs);
    case And(cs) => CanonAllIsSame(cs);
    case Or(cs) => CanonAllIsSame(cs);
    case Seq(cs) => CanonAllIsSame(cs);
    case While(a, d) => CanonIsSame(a); CanonIsSame(d);
    case Until(a, d) => CanonIsSame(a); CanonIsSame(d);
    case For(_, _, d) => CanonIsSame(d);
    case If(i, t, es, e) =>
      CanonIsSame(i);
      CanonIsSame(t);
      CanonElifsIsSame(es);
      if e.Some? { CanonIsSame(e.value); }
    case _ =>
  }

  lemma CanonAllIsSame(cs: seq<Cmd>)
    ensures CanonAll(cs) == cs <==> AllPlural(cs)
    decreases cs, 1
  {
    if cs != [] {
      CanonIsSame(cs[0]);
      CanonAllIsSame(cs[1..]);
      assert cs == [cs[0]] + cs[1..];
      assert CanonAll(cs)[0] == Canon(cs[0]) && CanonAll(cs)[1..] == CanonAll(cs[1..]);
    }
  }

  lemma CanonElifsIsSame(es: seq<Elif>)
    ensures CanonElifs(es) == es <==> ElifsPlural(es)
    decreases es, 1
  {
    if es != [] {
      CanonElifIsSame(es[0]);
      CanonElifsIsSame(es[1..]);
      assert es == [es[0]] + es[1..];
      assert CanonElifs(es)[0] == CanonElif(es[0]) && CanonElifs(es)[1..] == CanonElifs(es[1..]);
    }
  }

  lemma CanonElifIsSame(e: Elif)
    ensures CanonElif(e) == e <==> ElifPlural(e)
    decreases e, 0
  {
    CanonIsSame(e.cond);
    CanonIsSame(e.body);
  }

  /** Reading back returns the very tree exactly when no such group occurs. */
  lemma ExactRoundTripIff(c: Cmd)
    requires WellFormed(c)
    ensures Parse(CmdText(c)) == Some(c) <==> Plural(c)
  {
    RoundTrip(c);
    CanonIsSame(c);
  }

  // ----- what a word means -----

  /** The value of a word when env gives those of the variables and, under "?", the last exit
      status: quoted and bare text is itself, and pieces are put together. */
  function WordValue(w: Word, env: string -> string): string {
    match w
    case Pieces(ps) => PiecesValue(ps, env)
    case Quoted(s) => s
  }

  function PiecesValue(ps: seq<Piece>, env: string -> string): string {
    if ps == [] then "" else PieceValue(ps[0], env) + PiecesValue(ps[1..], env)
  }

  function PieceValue(p: Piece, env: string -> string): string {
    match p
    case Bare(s) => s
    case Var(n) => env(n)
    case LastExit => env("?")
  }

  predicate Mentions(s: string, n: string) { s == "${" + n + "}" }

  /** The word stands for the argument: for the value of the variable that it mentions, or for
      the argument itself if it mentions none. */
  ghost predicate StandsFor(w: Word, s: string, env: string -> string) {
    && (forall n :: Mentions(s, n) ==> WordValue(w, env) == env(n))
    && ((forall n :: !Mentions(s, n)) ==> WordValue(w, env) == s)
  }

  lemma VarFormIff(s: string)
    ensures VarForm(s) ==> Mentions(s, s[2..|s| - 1])
    ensures forall n :: Mentions(s, n) ==> VarForm(s) && n == s[2..|s| - 1]
  {
    if VarForm(s) {
      assert s == s[..2] + s[2..|s| - 1] + [s[|s| - 1]];
    }
  }

  /** Whatever the argument and the variables are, the word made from an argument stands for
      it. */
  lemma OfStrStandsFor(s: string, env: string -> string)
    ensures StandsFor(OfStr(s), s, env)
  {
    VarFormIff(s);
    if VarForm(s) { assert s[0] == '$' && !IsBare(s); }
    assert forall p :: PiecesValue([p], env) == PieceValue(p, env) by {
      forall p ensures PiecesValue([p], env) == PieceValue(p, env) { assert [p][1..] == []; }
    }
  }

  ghost predicate StandForAll(ws: seq<Word>, ss: seq<string>, env: string -> string) {
    |ws| == |ss| && forall i :: 0 <= i < |ws| ==> StandsFor(ws[i], ss[i], env)
  }

  lemma OfStrsStandFor(ss: seq<string>, env: string -> string)
    ensures OfStrs(ss).Simple? && StandForAll(OfStrs(ss).words, ss, env)
  {
    forall i | 0 <= i < |ss| ensures StandsFor(OfStrs(ss).words[i], ss[i], env) { OfStrStandsFor(ss[i], env); }
  }

  // ----- words made from strings -----

  /** An argument that becomes one word meaning itself (or the variable it names). */
  predicate OkArgument(s: string) {
    if VarForm(s) then NameChars(s[2..|s| - 1])
    else s != "" && '\'' !in s && (IsBare(s) ==> BareChars(s))
  }

  lemma OfStrOk(s: string)
    ensures WordOk(OfStr(s)) <==> OkArgument(s)
  {
    var w := OfStr(s);
    if VarForm(s) {
      assert s[0] == '$' && !IsBare(s);
      assert PieceOk(w.pieces[0]) <==> NameChars(s[2..|s| - 1]);
    } else if IsBare(s) {
      assert PieceOk(w.pieces[0]) <==> s != "" && BareChars(s);
    }
  }

  predicate ReadsBack(w: Word) { WordPrints(w) && Lex(WordText(w)) == Some([TWord(w)]) }

  /** The word prints and its text is read as one word. */
  ghost predicate ReadsAsWord(w: Word) { WordPrints(w) && exists v :: Lex(WordText(w)) == Some([TWord(v)]) }

  /** The word prints, and its text is read as one word, which stands for the argument. */
  ghost predicate ReadsAs(w: Word, s: string, env: string -> string) {
    WordPrints(w) && exists v :: Lex(WordText(w)) == Some([TWord(v)]) && StandsFor(v, s, env)
  }

  lemma ReadsBackIfOk(w: Word)
    requires WordOk(w)
    ensures ReadsBack(w)
  {
    LexesWord(w);
    assert LexesBefore(WordText(w), [TWord(w)], "");
    assert WordText(w) + "" == WordText(w);
    assert Lex("") == Some([]);
    assert [TWord(w)] + [] == [TWord(w)];
  }

  lemma NewlineBreaksWord(p: string)
    requires BareChars(p)
    ensures Lex(p + "\n").None?
  {
    var s := p + "\n";
    assert s[|p|] == '\n';
    BareRunIs(p, "\n");
    Split(p, "\n");
    assert s[0] == if p == "" then '\n' else p[0];
    if p == "" {
      assert LexWord(s).None?;
    } else {
      LexBare(p, "\n");
      assert !AtDelim("\n");
    }
  }

  lemma UnclosedVariable(n: string, after: string)
    requires NameChars(n) && after != "" && !IsBareChar(after[0]) && after[0] != '}'
    ensures LexPieces("${" + (n + after)).None?
  {
    var inner := n + after;
    var s := "${" + inner;
    BareRunIs(n, after);
    assert s[2..] == inner && s[2 + |n|] == after[0] && s[2] == n[0];
    assert s[..4][2] == n[0];
  }

  lemma BadVariable(n: string)
    requires !NameChars(n)
    ensures !ReadsAsWord(Pieces([Var(n)]))
  {
    if IsName(n) {
      assert n == Chomp(n) + "\n";
      UnclosedVariable(Chomp(n), "\n}\"");
      VarText(n);
      assert "${" + n + "}\"" == "${" + (Chomp(n) + "\n}\"");
      LexDouble("${" + n + "}\"");
      assert LexToken(WordText(Pieces([Var(n)]))).None?;
    } else {
      assert !PiecesPrint([Var(n)]) by { assert [Var(n)][0] == Var(n); }
    }
  }

  lemma BadBare(s: string)
    requires s == "" || (IsBare(s) && !BareChars(s))
    ensures !ReadsAsWord(Pieces([Bare(s)]))
  {
    if s != "" {
      assert s == Chomp(s) + "\n";
      NewlineBreaksWord(Chomp(s));
    }
    assert WordText(Pieces([Bare(s)])) == s;
  }

  lemma OfStrReadsAsWordIff(s: string)
    ensures ReadsAsWord(OfStr(s)) <==> OkArgument(s)
    ensures ReadsBack(OfStr(s)) <==> OkArgument(s)
  {
    hide Lex, LexToken;
    OfStrOk(s);
    if OkArgument(s) {
      ReadsBackIfOk(OfStr(s));
    } else if VarForm(s) {
      assert s[0] == '$' && !IsBare(s);
      BadVariable(s[2..|s| - 1]);
    } else if IsBare(s) {
      BadBare(s);
    }
  }

  /** OfStr gives a word that prints and is read as one word standing for the argument for
      exactly the good arguments: the empty string vanishes, and a final newline, which the
      bare-word pattern lets through, ends the word early. */
  lemma OfStrReadsBackIff(s: string, env: string -> string)
    ensures ReadsAs(OfStr(s), s, env) <==> OkArgument(s)
    ensures ReadsBack(OfStr(s)) <==> OkArgument(s)
  {
    OfStrReadsAsWordIff(s);
    OfStrStandsFor(s, env);
    hide OfStr, OkArgument, WordPrints, Lex, WordText, StandsFor;
  }

  /** The empty argument and one that ends in a newline are lost, though nothing fails. */
  lemma LostArguments()
    ensures WordPrints(OfStr("")) && !ReadsAsWord(OfStr(""))
    ensures WordPrints(OfStr("true\n")) && !ReadsAsWord(OfStr("true\n"))
  {
    hide ReadsBack, ReadsAsWord;
    OfStrReadsAsWordIff("");
    OfStrReadsAsWordIff("true\n");
    assert Chomp("true\n") == "true";
    assert !IsBareChar("true\n"[4]);
  }

  lemma VarText(n: string)
    ensures WordText(Pieces([Var(n)])) == "\"" + ("${" + n + "}\"")
  {
    assert PiecesText([Var(n)]) == "${" + n + "}";
  }

  // ----- composing commands -----

  predicate OkCommand(ss: seq<string>) {
    ss != [] && (forall i :: 0 <= i < |ss| ==> OkArgument(ss[i])) && ss[0] !in RESERVED
  }

  lemma OfStrsWellFormed(ss: seq<string>)
    requires OkCommand(ss)
    ensures WellFormed(OfStrs(ss))
  {
    forall i | 0 <= i < |ss| ensures WordOk(OfStrs(ss).words[i]) { OfStrOk(ss[i]); }
  }

  lemma {:induction false} AllWellFormedAppend(cs: seq<Cmd>, d: Cmd)
    requires AllWellFormed(cs) && WellFormed(d)
    ensures AllWellFormed(cs + [d])
    ensures CanonAll(cs + [d]) == CanonAll(cs) + [Canon(d)]
  {
    if cs == [] {
      assert cs + [d] == [d] && [d][1..] == [];
    } else {
      AllWellFormedAppend(cs[1..], d);
      assert (cs + [d])[1..] == cs[1..] + [d];
    }
  }

  function RawGroup(sep: Token, cs: seq<Cmd>): Cmd {
    match sep case TPipe => Pipe(cs) case TAnd => And(cs) case TOr => Or(cs) case _ => Seq(cs)
  }

  lemma GroupParses(sep: Token, cs: seq<Cmd>, next: Cmd)
    requires IsSep(sep) && cs != [] && AllWellFormed(cs) && WellFormed(next)
    ensures WellFormed(RawGroup(sep, cs + [next]))
    ensures Parse(CmdText(RawGroup(sep, cs + [next]))) == Some(RawGroup(sep, CanonAll(cs) + [Canon(next)]))
  {
    hide Parse, CmdText, ToString;
    AllWellFormedAppend(cs, next);
    RoundTrip(RawGroup(sep, cs + [next]));
  }

  /** The commands that "c op next" extends: c's own, if it is a group of that operator. */
  function Operands(sep: Token, c: Cmd): seq<Cmd> {
    if (sep.TPipe? && c.Pipe?) || (sep.TAnd? && c.And?) || (sep.TOr? && c.Or?) || (sep.TSemi? && c.Seq?)
    then c.cmds else [c]
  }

  /** The text of r is c's operands followed by a command of these words. */
  ghost predicate ComposesWords(r: Cmd, sep: Token, c: Cmd, ws: seq<Word>) {
    WellFormed(r) && Parse(CmdText(r)) == Some(RawGroup(sep, CanonAll(Operands(sep, c)) + [Simple(ws)]))
  }

  /** The text of r runs c's operands and a command whose words stand for these arguments. */
  ghost predicate Composes(r: Cmd, sep: Token, c: Cmd, ss: seq<string>, env: string -> string) {
    exists ws :: ComposesWords(r, sep, c, ws) && StandForAll(ws, ss, env)
  }

  lemma ComposeOne(sep: Token, c: Cmd, ss: seq<string>, env: string -> string)
    requires IsSep(sep) && WellFormed(c) && OkCommand(ss)
    ensures Composes(RawGroup(sep, Operands(sep, c) + [OfStrs(ss)]), sep, c, ss, env)
  {
    var next := OfStrs(ss);
    OfStrsWellFormed(ss);
    OfStrsStandFor(ss, env);
    assert Canon(next) == next;
    assert AllWellFormed([c]) by { assert [c][1..] == []; }
    hide Parse, CmdText, CanonAll, Canon, StandForAll, OfStrs;
    GroupParses(sep, Operands(sep, c), next);
    assert ComposesWords(RawGroup(sep, Operands(sep, c) + [next]), sep, c, next.words);
  }

  /** The text of a good argument list is read as one command whose words stand for the
      arguments. */
  lemma CommandParses(ss: seq<string>, env: string -> string)
    requires OkCommand(ss)
    ensures var p := Parse(CmdText(OfStrs(ss))); p.Some? && p.value.Simple? && StandForAll(p.value.words, ss, env)
  {
    OfStrsWellFormed(ss);
    OfStrsStandFor(ss, env);
    assert Canon(OfStrs(ss)) == OfStrs(ss);
    hide Parse, CmdText, ToString, OfStrs, StandForAll;
    RoundTrip(OfStrs(ss));
  }

  /** Composing a well-formed command with a good argument list is well formed, and the
      printed composition parses as c's commands and, after them, one whose words stand for
      the arguments. */
  lemma CompositionParses(c: Cmd, ss: seq<string>, env: string -> string)
    requires WellFormed(c) && OkCommand(ss)
    ensures Composes(PipeTo(c, ss), TPipe, c, ss, env)
    ensures Composes(AndAlso(c, ss), TAnd, c, ss, env)
    ensures Composes(OrElse(c, ss), TOr, c, ss, env)
    ensures Composes(Then(c, ss), TSemi, c, ss, env)
  {
    hide Composes, WellFormed, OfStrs, OkCommand;
    ComposeOne(TPipe, c, ss, env);
    ComposeOne(TAnd, c, ss, env);
    ComposeOne(TOr, c, ss, env);
    ComposeOne(TSemi, c, ss, env);
    assert [c] + [OfStrs(ss)] == [c, OfStrs(ss)];
  }

  /** The text of a redirected command is the whole command with this redirection to or from
      a word that stands for the file. */
  ghost predicate Redirects(r: Cmd, c: Cmd, fd: int, from: bool, f: string, env: string -> string) {
    exists w ::
      Parse(CmdText(r)) == Some(Redirect(Canon(c), if from then FdFrom(fd, w) else FdTo(fd, w)))
      && StandsFor(w, f, env)
  }

  /** The redirecting members keep well-formedness and apply to the whole command. */
  lemma RedirectionParses(c: Cmd, f: string, env: string -> string)
    requires WellFormed(c) && OkArgument(f)
    ensures WellFormed(StdOutTo(c, f)) && Redirects(StdOutTo(c, f), c, 1, false, f, env)
    ensures WellFormed(StdErrTo(c, f)) && Redirects(StdErrTo(c, f), c, 2, false, f, env)
    ensures WellFormed(StdInFrom(c, f)) && Redirects(StdInFrom(c, f), c, 0, true, f, env)
    ensures WellFormed(StdErrToOut(c, f))
    ensures Parse(CmdText(StdErrToOut(c, f))) == Some(Redirect(Canon(c), FdDupTo(2, 1)))
  {
    OfStrOk(f);
    OfStrStandsFor(f, env);
    hide Parse, CmdText, ToString, OfStr, StandsFor;
    RoundTrip(StdOutTo(c, f));
    RoundTrip(StdErrTo(c, f));
    RoundTrip(StdInFrom(c, f));
    RoundTrip(StdErrToOut(c, f));
  }
}
