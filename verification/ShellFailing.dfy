/** When printing a shell tree meets a failwith. */
module ShellFailing {
  import opened Text
  import opened ShellCmd

  /** What the printer checks, wherever it stands in a tree. */
  datatype Check = Name(name: string) | Quote(text: string)

  /** A name that is no name, or a quoted text with a quote in it. */
  predicate Fails(a: Check) {
    match a
    case Name(n) => !IsName(n)
    case Quote(t) => '\'' in t
  }

  function PieceChecks(ps: seq<Piece>): set<Check> { set p | p in ps && p.Var? :: Name(p.name) }

  function WordChecks(w: Word): set<Check> {
    match w
    case Pieces(ps) => PieceChecks(ps)
    case Quoted(t) => {Quote(t)}
  }

  function WordsChecks(ws: seq<Word>): set<Check> { set w, a | w in ws && a in WordChecks(w) :: a }

  function RedirChecks(r: Redir): set<Check> {
    match r
    case FdFrom(_, w) => WordChecks(w)
    case FdTo(_, w) => WordChecks(w)
    case _ => {}
  }

  /** Everything in the tree that the printer checks. */
  function Checks(c: Cmd): set<Check>
    decreases c, 0
  {
    match c
    case Simple(ws) => WordsChecks(ws)
    case Def(n, v) => {Name(n)} + WordChecks(v)
    case ExDef(n, v) => {Name(n)} + WordChecks(v)
    case DefSub(n, ws) => {Name(n)} + WordsChecks(ws)
    case Redirect(w, r) => Checks(w) + RedirChecks(r)
    case Pipe(cs) => AllChecks(cs)
    case And(cs) => AllChecks(cs)
    case Or(cs) => AllChecks(cs)
    case Seq(cs) => AllChecks(cs)
    case While(a, d) => Checks(a) + Checks(d)
    case Until(a, d) => Checks(a) + Checks(d)
    case For(n, ws, d) => {Name(n)} + WordsChecks(ws) + Checks(d)
    case If(i, t, es, e) =>
      Checks(i) + Checks(t) + ElifsChecks(es) + if e.Some? then Checks(e.value) else {}
  }

  function AllChecks(cs: seq<Cmd>): set<Check>
    decreases cs, 1
  {
    if cs == [] then {} else Checks(cs[0]) + AllChecks(cs[1..])
  }

  function ElifsChecks(es: seq<Elif>): set<Check>
    decreases es, 1
  {
    if es == [] then {} else ElifChecks(es[0]) + ElifsChecks(es[1..])
  }

  function ElifChecks(e: Elif): set<Check>
    decreases e, 0
  {
    Checks(e.cond) + Checks(e.body)
  }

  predicate NoneFails(q: set<Check>) { forall a :: a in q ==> !Fails(a) }

  lemma NoneOfBoth(q: set<Check>, r: set<Check>)
    ensures NoneFails(q + r) <==> NoneFails(q) && NoneFails(r)
  {
  }

  lemma NoneOfName(n: string)
    ensures NoneFails({Name(n)}) <==> IsName(n)
    ensures NoneFails({})
  {
  }

  lemma WordPrintsIff(w: Word)
    ensures WordPrints(w) <==> NoneFails(WordChecks(w))
  {
    match w
    case Pieces(ps) =>
      forall i | 0 <= i < |ps| && ps[i].Var? ensures Name(ps[i].name) in PieceChecks(ps) { assert ps[i] in ps; }
    case Quoted(t) => assert Quote(t) in WordChecks(w);
  }

  lemma WordsPrintIff(ws: seq<Word>)
    ensures WordsPrint(ws) <==> NoneFails(WordsChecks(ws))
  {
    forall w | w in ws ensures WordPrints(w) <==> NoneFails(WordChecks(w)) { WordPrintsIff(w); }
    hide WordPrints, WordChecks, Fails;
    if NoneFails(WordsChecks(ws)) {
      forall i | 0 <= i < |ws| ensures WordPrints(ws[i]) {
        assert ws[i] in ws;
        assert forall a :: a in WordChecks(ws[i]) ==> a in WordsChecks(ws);
      }
    }
  }

  lemma RedirPrintsIff(r: Redir)
    ensures RedirPrints(r) <==> NoneFails(RedirChecks(r))
  {
    hide WordPrints, WordChecks, Fails;
    match r
    case FdFrom(_, w) => WordPrintsIff(w);
    case FdTo(_, w) => WordPrintsIff(w);
    case _ =>
  }

  /** Printing a tree raises exactly when one of its names is no name or one of its quoted
      texts holds a quote, anywhere in it. */
  lemma {:induction false} CmdPrintsIff(c: Cmd)
    ensures CmdPrints(c) <==> NoneFails(Checks(c))
    decreases c, 0
  {
    hide NoneFails, WordPrints, WordsPrint, RedirPrints, WordChecks, WordsChecks, RedirChecks;
    match c
    case Simple(ws) => WordsPrintIff(ws);
    case Def(n, v) => NoneOfName(n); WordPrintsIff(v); NoneOfBoth({Name(n)}, WordChecks(v));
    case ExDef(n, v) => NoneOfName(n); WordPrintsIff(v); NoneOfBoth({Name(n)}, WordChecks(v));
    case DefSub(n, ws) => NoneOfName(n); WordsPrintIff(ws); NoneOfBoth({Name(n)}, WordsChecks(ws));
    case Redirect(w, r) => CmdPrintsIff(w); RedirPrintsIff(r); NoneOfBoth(Checks(w), RedirChecks(r));
    case Pipe(cs) => CmdsPrintIff(cs);
    case And(cs) => CmdsPrintIff(cs);
    case Or(cs) => CmdsPrintIff(cs);
    case Seq(cs) => CmdsPrintIff(cs);
    case While(a, d) => CmdPrintsIff(a); CmdPrintsIff(d); NoneOfBoth(Checks(a), Checks(d));
    case Until(a, d) => CmdPrintsIff(a); CmdPrintsIff(d); NoneOfBoth(Checks(a), Checks(d));
    case For(n, ws, d) =>
      NoneOfName(n);
      WordsPrintIff(ws);
      CmdPrintsIff(d);
      NoneOfBoth({Name(n)}, WordsChecks(ws));
      NoneOfBoth({Name(n)} + WordsChecks(ws), Checks(d));
    case If(i, t, es, e) =>
      CmdPrintsIff(i);
      CmdPrintsIff(t);
      ElifsPrintIff(es);
      NoneOfName("");
      if e.Some? { CmdPrintsIff(e.value); }
      NoneOfBoth(Checks(i), Checks(t));
      NoneOfBoth(Checks(i) + Checks(t), ElifsChecks(es));
      NoneOfBoth(Checks(i) + Checks(t) + ElifsChecks(es), if e.Some? then Checks(e.value) else {});
  }

  lemma {:induction false} CmdsPrintIff(cs: seq<Cmd>)
    ensures CmdsPrint(cs) <==> NoneFails(AllChecks(cs))
    decreases cs, 1
  {
    hide NoneFails;
    NoneOfName("");
    if cs != [] {
      CmdPrintsIff(cs[0]);
      CmdsPrintIff(cs[1..]);
      NoneOfBoth(Checks(cs[0]), AllChecks(cs[1..]));
    }
  }

  lemma {:induction false} ElifsPrintIff(es: seq<Elif>)
    ensures ElifsPrint(es) <==> NoneFails(ElifsChecks(es))
    decreases es, 1
  {
    hide NoneFails;
    NoneOfName("");
    if es != [] {
      ElifPrintsIff(es[0]);
      ElifsPrintIff(es[1..]);
      NoneOfBoth(ElifChecks(es[0]), ElifsChecks(es[1..]));
    }
  }

  lemma {:induction false} ElifPrintsIff(e: Elif)
    ensures ElifPrints(e) <==> NoneFails(ElifChecks(e))
    decreases e, 0
  {
    hide NoneFails;
    CmdPrintsIff(e.cond);
    CmdPrintsIff(e.body);
    NoneOfBoth(Checks(e.cond), Checks(e.body));
  }

  /** Printing raises exactly when one of the names in the tree does not match the pattern of
      names or one of its quoted texts holds a quote; otherwise it gives the text. */
  lemma RaisesIff(c: Cmd)
    ensures ToString(c).Raised? <==>
      || (exists n :: Name(n) in Checks(c) && !IsName(n))
      || (exists t :: Quote(t) in Checks(c) && '\'' in t)
    ensures ToString(c).Printed? ==> ToString(c).text == CmdText(c)
  {
    CmdPrintsIff(c);
    hide CmdPrints, Checks, IsName, CmdText;
    if a :| a in Checks(c) && Fails(a) {
      match a
      case Name(n) => assert Name(n) in Checks(c);
      case Quote(t) => assert Quote(t) in Checks(c);
    }
  }
}
