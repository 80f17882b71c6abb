/** The shell command tree of src/FSLibrary/StellarShellCmd.fs and its printers. */
module ShellCmd {
  import opened Text

  datatype Piece = Bare(text: string) | Var(name: string) | LastExit

  datatype Word = Pieces(pieces: seq<Piece>) | Quoted(text: string)

  datatype Redir =
    | FdFrom(fd: int, source: Word)
    | FdTo(fd: int, target: Word)
    | FdDupFrom(fd: int, other: int)
    | FdDupTo(fd: int, other: int)

  datatype Elif = Elif(cond: Cmd, body: Cmd)

  datatype Cmd =
    | Simple(words: seq<Word>)
    | Def(name: string, value: Word)
    | ExDef(name: string, value: Word)
    | DefSub(name: string, words: seq<Word>)
    | Redirect(cmd: Cmd, redir: Redir)
    | Pipe(cmds: seq<Cmd>)
    | And(cmds: seq<Cmd>)
    | Or(cmds: seq<Cmd>)
    | Seq(cmds: seq<Cmd>)
    | While(cond: Cmd, body: Cmd)
    | Until(cond: Cmd, body: Cmd)
    | For(name: string, words: seq<Word>, body: Cmd)
    | If(cond: Cmd, body: Cmd, elifs: seq<Elif>, otherwise: Option<Cmd>)

  // ----- the two regular expressions -----

  predicate IsNameStart(c: char) { 'a' <= c <= 'z' || 'A' <= c <= 'Z' || c == '_' }

  predicate IsNameChar(c: char) { IsNameStart(c) || IsDigit(c) }

  predicate IsBareChar(c: char) { IsNameChar(c) || c in {'.', '/', '-'} }

  predicate NameChars(s: string) {
    |s| > 0 && IsNameStart(s[0]) && forall i :: 0 <= i < |s| ==> IsNameChar(s[i])
  }

  predicate BareChars(s: string) { forall i :: 0 <= i < |s| ==> IsBareChar(s[i]) }

  // A .NET "$" also matches just before a final newline.
  function Chomp(s: string): string {
    if |s| > 0 && s[|s| - 1] == '\n' then s[..|s| - 1] else s
  }

  predicate IsName(s: string) { NameChars(s) || NameChars(Chomp(s)) }

  predicate IsBare(s: string) { BareChars(s) || BareChars(Chomp(s)) }

  const LOWER := "abcdefghijklmnopqrstuvwxyz"
  const UPPER := "ABCDEFGHIJKLMNOPQRSTUVWXYZ"
  const DIGITS := "0123456789"

  /** A string of consecutive characters. */
  predicate Stretch(s: string, first: char) {
    first as int + |s| < 128 && forall i :: 0 <= i < |s| ==> s[i] as int == first as int + i
  }

  lemma StretchHas(s: string, first: char, c: char)
    requires Stretch(s, first)
    ensures c in s <==> first as int <= c as int < first as int + |s|
  {
    if first as int <= c as int < first as int + |s| { assert s[c as int - first as int] == c; }
  }

  lemma LowerStretch()
    ensures |LOWER| == 26 && Stretch(LOWER, 'a')
  {
  }

  lemma UpperStretch()
    ensures |UPPER| == 26 && Stretch(UPPER, 'A')
  {
  }

  lemma DigitStretch()
    ensures |DIGITS| == 10 && Stretch(DIGITS, '0')
  {
  }

  /** The characters of the two patterns, one by one. */
  lemma PatternCharacters(c: char)
    ensures IsBareChar(c) <==> c in LOWER || c in UPPER || c in DIGITS || c in "_./-"
    ensures IsNameChar(c) <==> c in LOWER || c in UPPER || c in DIGITS || c == '_'
    ensures IsNameStart(c) <==> c in LOWER || c in UPPER || c == '_'
  {
    hide Stretch;
    LowerStretch();
    UpperStretch();
    DigitStretch();
    StretchHas(LOWER, 'a', c);
    StretchHas(UPPER, 'A', c);
    StretchHas(DIGITS, '0', c);
  }

  /** A string matches a pattern exactly when it is of its characters, or such a string and a
      final newline. */
  lemma PatternsMatch(s: string)
    ensures IsName(s) <==> exists t :: NameChars(t) && (s == t || s == t + "\n")
    ensures IsBare(s) <==> exists t :: BareChars(t) && (s == t || s == t + "\n")
  {
    assert s == Chomp(s) || s == Chomp(s) + "\n";
    hide NameChars, BareChars;
    forall t ensures Chomp(t + "\n") == t {}
  }

  // ----- printing -----

  datatype Printed = Printed(text: string) | Raised

  /** Whether printing meets no failwith: every name is a Name and no quoted
      string holds a quote. The content of a bare piece is not checked. */
  predicate PiecesPrint(ps: seq<Piece>) {
    forall i :: 0 <= i < |ps| ==> ps[i].Var? ==> IsName(ps[i].name)
  }

  predicate WordPrints(w: Word) {
    match w
    case Pieces(ps) => PiecesPrint(ps)
    case Quoted(s) => '\'' !in s
  }

  predicate WordsPrint(ws: seq<Word>) { forall i :: 0 <= i < |ws| ==> WordPrints(ws[i]) }

  predicate RedirPrints(r: Redir) {
    match r
    case FdFrom(_, w) => WordPrints(w)
    case FdTo(_, w) => WordPrints(w)
    case _ => true
  }

  predicate CmdPrints(c: Cmd)
    decreases c, 0
  {
    match c
    case Simple(ws) => WordsPrint(ws)
    case Def(n, v) => IsName(n) && WordPrints(v)
    case ExDef(n, v) => IsName(n) && WordPrints(v)
    case DefSub(n, ws) => IsName(n) && WordsPrint(ws)
    case Redirect(w, r) => CmdPrints(w) && RedirPrints(r)
    case Pipe(cs) => CmdsPrint(cs)
    case And(cs) => CmdsPrint(cs)
    case Or(cs) => CmdsPrint(cs)
    case Seq(cs) => CmdsPrint(cs)
    case While(a, d) => CmdPrints(a) && CmdPrints(d)
    case Until(a, d) => CmdPrints(a) && CmdPrints(d)
    case For(n, ws, d) => IsName(n) && WordsPrint(ws) && CmdPrints(d)
    case If(i, t, es, e) =>
      CmdPrints(i) && CmdPrints(t) && ElifsPrint(es) && (e.Some? ==> CmdPrints(e.value))
  }

  predicate CmdsPrint(cs: seq<Cmd>)
    decreases cs, 1
  {
    cs == [] || (CmdPrints(cs[0]) && CmdsPrint(cs[1..]))
  }

  predicate ElifsPrint(es: seq<Elif>)
    decreases es, 1
  {
    es == [] || (ElifPrints(es[0]) && ElifsPrint(es[1..]))
  }

  predicate ElifPrints(e: Elif)
    decreases e, 0
  {
    CmdPrints(e.cond) && CmdPrints(e.body)
  }

  function PieceText(p: Piece): string {
    match p
    case Bare(s) => s
    case Var(n) => "${" + n + "}"
    case LastExit => "${?}"
  }

  function PiecesText(ps: seq<Piece>): string {
    if ps == [] then "" else PieceText(ps[0]) + PiecesText(ps[1..])
  }

  function WordText(w: Word): string {
    match w
    case Pieces(ps) =>
      if |ps| == 1 && ps[0].Bare? then ps[0].text else "\"" + PiecesText(ps) + "\""
    case Quoted(s) => "'" + s + "'"
  }

  /** String.concat: the texts with a separator between neighbours. */
  function Join(ts: seq<string>, sep: string): string {
    if ts == [] then "" else if |ts| == 1 then ts[0] else ts[0] + sep + Join(ts[1..], sep)
  }

  function WordTexts(ws: seq<Word>): (ts: seq<string>)
    ensures |ts| == |ws|
  {
    seq(|ws|, i requires 0 <= i < |ws| => WordText(ws[i]))
  }

  function WordsText(ws: seq<Word>): string { Join(WordTexts(ws), " ") }

  function RedirText(r: Redir): string {
    match r
    case FdFrom(i, w) => IntText(i) + "<" + WordText(w)
    case FdTo(i, w) => IntText(i) + ">" + WordText(w)
    case FdDupFrom(i, j) => IntText(i) + "<&" + IntText(j)
    case FdDupTo(i, j) => IntText(i) + ">&" + IntText(j)
  }

  function Braced(ts: seq<string>, sep: string): string { "{ " + Join(ts, sep) + "; }" }

  function CmdText(c: Cmd): string
    decreases c, 0
  {
    match c
    case Simple(ws) => WordsText(ws)
    case Def(n, v) => n + "=" + WordText(v)
    case ExDef(n, v) => "export " + n + "=" + WordText(v)
    case DefSub(n, ws) => n + "=`" + WordsText(ws) + "`"
    case Redirect(w, r) => CmdText(w) + " " + RedirText(r)
    case Pipe(cs) => Braced(CmdTexts(cs), " | ")
    case Seq(cs) => Braced(CmdTexts(cs), "; ")
    case And(cs) => Braced(CmdTexts(cs), " && ")
    case Or(cs) => Braced(CmdTexts(cs), " || ")
    case While(a, d) => "while " + CmdText(a) + "; do " + CmdText(d) + "; done"
    case Until(a, d) => "until " + CmdText(a) + "; do " + CmdText(d) + "; done"
    case For(n, ws, d) =>
      "for " + n + " in " + WordsText(ws) + "; do " + CmdText(d) + "; done"
    case If(i, t, es, e) =>
      "if " + CmdText(i) + "; then " + CmdText(t) + ";" + ElifsText(es) + ElseText(e) + " fi"
  }

  function CmdTexts(cs: seq<Cmd>): (ts: seq<string>)
    ensures |ts| == |cs|
    decreases cs, 1
  {
    if cs == [] then [] else [CmdText(cs[0])] + CmdTexts(cs[1..])
  }

  function ElifsText(es: seq<Elif>): string
    decreases es, 1
  {
    if es == [] then "" else ElifText(es[0]) + ElifsText(es[1..])
  }

  function ElseText(e: Option<Cmd>): string
    decreases e, 0
  {
    if e.Some? then " else " + CmdText(e.value) + ";" else ""
  }

  function ElifText(e: Elif): string
    decreases e, 0
  {
    " elif " + CmdText(e.cond) + "; then " + CmdText(e.body) + ";"
  }

  function ToString(c: Cmd): Printed {
    if CmdPrints(c) then Printed(CmdText(c)) else Raised
  }

  // ----- building commands -----

  predicate VarForm(s: string) {
    |s| >= 3 && s[..2] == "${" && s[|s| - 1] == '}'
  }

  function OfStr(s: string): Word {
    if IsBare(s) then Pieces([Bare(s)])
    else if VarForm(s) then Pieces([Var(s[2..|s| - 1])])
    else Quoted(s)
  }

  function OfStrs(ss: seq<string>): Cmd {
    Simple(seq(|ss|, i requires 0 <= i < |ss| => OfStr(ss[i])))
  }

  function PipeTo(c: Cmd, ss: seq<string>): Cmd {
    if c.Pipe? then Pipe(c.cmds + [OfStrs(ss)]) else Pipe([c, OfStrs(ss)])
  }

  function AndAlso(c: Cmd, ss: seq<string>): Cmd {
    if c.And? then And(c.cmds + [OfStrs(ss)]) else And([c, OfStrs(ss)])
  }

  function OrElse(c: Cmd, ss: seq<string>): Cmd {
    if c.Or? then Or(c.cmds + [OfStrs(ss)]) else Or([c, OfStrs(ss)])
  }

  function Then(c: Cmd, ss: seq<string>): Cmd {
    if c.Seq? then Seq(c.cmds + [OfStrs(ss)]) else Seq([c, OfStrs(ss)])
  }

  function StdOutTo(c: Cmd, f: string): Cmd { Redirect(c, FdTo(1, OfStr(f))) }

  function StdErrTo(c: Cmd, f: string): Cmd { Redirect(c, FdTo(2, OfStr(f))) }

  // The file argument of the original is unused.
  function StdErrToOut(c: Cmd, f: string): Cmd { Redirect(c, FdDupTo(2, 1)) }

  function StdInFrom(c: Cmd, f: string): Cmd { Redirect(c, FdFrom(0, OfStr(f))) }
}
