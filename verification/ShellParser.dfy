/** A reference reader for the subset of the POSIX Shell Command Language that the
    printer emits: token recognition and quoting (sections 2.2 and 2.3), backquoted
    command substitution (2.6.3), redirection (2.7) and the grammar (2.10). It is
    written from the standard, not from the printer. */
module ShellParser {
  import opened Text
  import opened ShellCmd

  datatype Token =
    | TWord(word: Word)
    | TAssign(name: string, value: Word)
    | TAssignSub(name: string, words: seq<Word>)
    | TRedir(redir: Redir)
    | TSemi | TPipe | TAnd | TOr | TOpen | TClose

  const RESERVED := {"case", "do", "done", "elif", "else", "esac", "fi", "for", "if", "in",
                     "then", "until", "while"}

  // ----- characters to tokens -----

  /** A word, assignment or redirection ends at a blank, a semicolon or the end. */
  predicate AtDelim(s: string) { s == "" || s[0] == ' ' || s[0] == ';' }

  function BareRun(s: string): (n: nat)
    ensures n <= |s| && BareChars(s[..n])
    ensures n < |s| ==> !IsBareChar(s[n])
  {
    if s == "" || !IsBareChar(s[0]) then 0 else 1 + BareRun(s[1..])
  }

  /** Position of the first occurrence of a character, or the length. */
  function Find(s: string, c: char): (n: nat)
    ensures n <= |s| && c !in s[..n]
    ensures n < |s| ==> s[n] == c
  {
    if s == "" || s[0] == c then 0 else 1 + Find(s[1..], c)
  }

  /** The inside of a double-quoted word, up to and including the closing quote. */
  function LexPieces(s: string): (r: Option<(seq<Piece>, string)>)
    ensures r.Some? ==> |r.value.1| < |s|
    decreases |s|
  {
    if s == "" then None
    else if s[0] == '"' then Some(([], s[1..]))
    else if s[0] == '$' then
      if |s| >= 4 && s[..4] == "${?}" then
        var (ps, rest) :- LexPieces(s[4..]);
        Some(([LastExit] + ps, rest))
      else if |s| >= 2 && s[1] == '{' then
        var n := BareRun(s[2..]);
        var name := s[2..2 + n];
        if NameChars(name) && 2 + n < |s| && s[2 + n] == '}' then
          var (ps, rest) :- LexPieces(s[3 + n..]);
          Some(([Var(name)] + ps, rest))
        else None
      else None
    else
      var n := BareRun(s);
      if n == 0 then None
      else
        var (ps, rest) :- LexPieces(s[n..]);
        Some(([Bare(s[..n])] + ps, rest))
  }

  function LexWord(s: string): (r: Option<(Word, string)>)
    ensures r.Some? ==> |r.value.1| < |s|
  {
    if s == "" then None
    else if s[0] == '\'' then
      var n := Find(s[1..], '\'');
      if n < |s[1..]| then Some((Quoted(s[1..][..n]), s[1..][n + 1..])) else None
    else if s[0] == '"' then
      var (ps, rest) :- LexPieces(s[1..]);
      Some((Pieces(ps), rest))
    else
      var n := BareRun(s);
      if n == 0 then None else Some((Pieces([Bare(s[..n])]), s[n..]))
  }

  /** Blank-separated words and nothing else. */
  function LexWords(s: string): Option<seq<Word>>
    decreases |s|
  {
    if s == "" then Some([])
    else if s[0] == ' ' then LexWords(s[1..])
    else
      var (w, rest) :- LexWord(s);
      if AtDelim(rest) then
        var ws :- LexWords(rest);
        Some([w] + ws)
      else None
  }

  predicate Escapable(c: char) { c in {'$', '`', '\\'} }

  /** Backquoted text up to the first unescaped backquote; a backslash before
      '$', '`' or '\' is removed. */
  function LexBackquoted(s: string): (r: Option<(string, string)>)
    ensures r.Some? ==> |r.value.0| + |r.value.1| < |s|
    decreases |s|
  {
    if s == "" then None
    else if s[0] == '`' then Some(("", s[1..]))
    else if s[0] == '\\' && |s| > 1 && Escapable(s[1]) then
      var (t, rest) :- LexBackquoted(s[2..]);
      Some(([s[1]] + t, rest))
    else
      var (t, rest) :- LexBackquoted(s[1..]);
      Some(([s[0]] + t, rest))
  }

  /** What follows "name=". */
  function LexValue(name: string, s: string): (r: Option<(Token, string)>)
    ensures r.Some? ==> |r.value.1| <= |s|
  {
    if AtDelim(s) then Some((TAssign(name, Pieces([Bare("")])), s))
    else if s[0] == '`' then
      var (inner, rest) :- LexBackquoted(s[1..]);
      var ws :- LexWords(inner);
      if ws != [] && ReservedWord(ws[0]) then None else Some((TAssignSub(name, ws), rest))
    else
      var (w, rest) :- LexWord(s);
      Some((TAssign(name, w), rest))
  }

  /** What follows "fd<" or "fd>". */
  function LexRedir(fd: nat, from: bool, s: string): (r: Option<(Token, string)>)
    ensures r.Some? ==> |r.value.1| <= |s|
  {
    if s != "" && s[0] == '&' then
      var n := BareRun(s[1..]);
      var other := s[1..][..n];
      if n > 0 && AllDigits(other) then
        Some((TRedir(if from then FdDupFrom(fd, Value(other)) else FdDupTo(fd, Value(other))),
              s[1..][n..]))
      else None
    else
      var (w, rest) :- LexWord(s);
      Some((TRedir(if from then FdFrom(fd, w) else FdTo(fd, w)), rest))
  }

  function LexToken(s: string): (r: Option<(Token, string)>)
    requires s != ""
    ensures r.Some? ==> |r.value.1| < |s|
  {
    if s[0] == ';' then Some((TSemi, s[1..]))
    else if s[0] == '|' then
      if |s| > 1 && s[1] == '|' then Some((TOr, s[2..])) else Some((TPipe, s[1..]))
    else if s[0] == '&' then
      if |s| > 1 && s[1] == '&' then Some((TAnd, s[2..])) else None
    else if s[0] == '{' then Some((TOpen, s[1..]))
    else if s[0] == '}' then Some((TClose, s[1..]))
    else
      var n := BareRun(s);
      var run := s[..n];
      if n > 0 && n < |s| && s[n] == '=' then
        if NameChars(run) then LexValue(run, s[n + 1..]) else None
      else if n > 0 && n < |s| && (s[n] == '<' || s[n] == '>') then
        if AllDigits(run) then LexRedir(Value(run), s[n] == '<', s[n + 1..]) else None
      else
        var (w, rest) :- LexWord(s);
        Some((TWord(w), rest))
  }

  predicate NeedsDelim(t: Token) { !t.TSemi? }

  function Lex(s: string): Option<seq<Token>>
    decreases |s|
  {
    if s == "" then Some([])
    else if s[0] == ' ' then Lex(s[1..])
    else
      var (t, rest) :- LexToken(s);
      if NeedsDelim(t) && !AtDelim(rest) then None
      else
        var ts :- Lex(rest);
        Some([t] + ts)
  }

  // ----- tokens to commands -----

  function Plain(s: string): Token { TWord(Pieces([Bare(s)])) }

  predicate ReservedWord(w: Word) {
    w.Pieces? && |w.pieces| == 1 && w.pieces[0].Bare? && w.pieces[0].text in RESERVED
  }

  function Expect(ts: seq<Token>, want: seq<Token>): (r: Option<seq<Token>>)
    ensures r.Some? ==> ts == want + r.value
  {
    if want <= ts then Some(ts[|want|..]) else None
  }

  /** Leading word tokens. */
  function TakeWords(ts: seq<Token>): (r: (seq<Word>, seq<Token>))
    ensures |r.1| + |r.0| == |ts|
  {
    if ts != [] && ts[0].TWord? then
      var (ws, rest) := TakeWords(ts[1..]);
      ([ts[0].word] + ws, rest)
    else ([], ts)
  }

  function ParseRedirs(c: Cmd, ts: seq<Token>): (r: (Cmd, seq<Token>))
    ensures |r.1| <= |ts|
    decreases |ts|
  {
    if ts != [] && ts[0].TRedir? then ParseRedirs(Redirect(c, ts[0].redir), ts[1..]) else (c, ts)
  }

  function ParseCmd(ts: seq<Token>): (r: Option<(Cmd, seq<Token>)>)
    ensures r.Some? ==> |r.value.1| < |ts|
    decreases |ts|, 1
  {
    var (c, rest) :- ParseCore(ts);
    Some(ParseRedirs(c, rest))
  }

  /** A command without its trailing redirections. */
  function ParseCore(ts: seq<Token>): (r: Option<(Cmd, seq<Token>)>)
    ensures r.Some? ==> |r.value.1| < |ts|
    decreases |ts|, 0
  {
    if ts == [] then None
    else
      match ts[0]
      case TOpen => ParseGroup(ts[1..])
      case TAssign(n, v) => Some((Def(n, v), ts[1..]))
      case TAssignSub(n, ws) => Some((DefSub(n, ws), ts[1..]))
      case TWord(w) =>
        if w == Plain("while").word || w == Plain("until").word then
          var (a, d, rest) :- ParseLoop(ts[1..]);
          Some((if w == Plain("while").word then While(a, d) else Until(a, d), rest))
        else if w == Plain("for").word then ParseFor(ts[1..])
        else if w == Plain("if").word then
          var (i, r1) :- ParseCmd(ts[1..]);
          var r2 :- Expect(r1, [TSemi, Plain("then")]);
          var (t, r3) :- ParseCmd(r2);
          var (es, e, rest) :- ParseIfTail(r3);
          Some((If(i, t, es, e), rest))
        else if ReservedWord(w) then None
        else if w == Plain("export").word && |ts| > 1 && ts[1].TAssign? then
          Some((ExDef(ts[1].name, ts[1].value), ts[2..]))
        else
          var (ws, rest) := TakeWords(ts);
          Some((Simple(ws), rest))
      case _ => None
  }

  /** After "{": one command, or commands separated by one operator, then "; }". */
  function ParseGroup(ts: seq<Token>): (r: Option<(Cmd, seq<Token>)>)
    ensures r.Some? ==> |r.value.1| < |ts|
    decreases |ts|, 3
  {
    var (first, rest) :- ParseCmd(ts);
    if [TSemi, TClose] <= rest then Some((Seq([first]), rest[2..]))
    else if rest == [] then None
    else
      var (more, rest') :- ParseList(rest[1..], rest[0]);
      match rest[0]
      case TPipe => Some((Pipe([first] + more), rest'))
      case TAnd => Some((And([first] + more), rest'))
      case TOr => Some((Or([first] + more), rest'))
      case TSemi => Some((Seq([first] + more), rest'))
      case _ => None
  }

  function ParseList(ts: seq<Token>, sep: Token): (r: Option<(seq<Cmd>, seq<Token>)>)
    ensures r.Some? ==> |r.value.1| < |ts|
    decreases |ts|, 3
  {
    var (c, rest) :- ParseCmd(ts);
    if [TSemi, TClose] <= rest then Some(([c], rest[2..]))
    else if rest != [] && rest[0] == sep then
      var (more, rest') :- ParseList(rest[1..], sep);
      Some(([c] + more, rest'))
    else None
  }

  function ParseLoop(ts: seq<Token>): (r: Option<(Cmd, Cmd, seq<Token>)>)
    ensures r.Some? ==> |r.value.2| < |ts|
    decreases |ts|, 3
  {
    var (a, r1) :- ParseCmd(ts);
    var (d, rest) :- ParseDo(r1);
    Some((a, d, rest))
  }

  /** "; do cmd; done" */
  function ParseDo(ts: seq<Token>): (r: Option<(Cmd, seq<Token>)>)
    ensures r.Some? ==> |r.value.1| < |ts|
    decreases |ts|, 3
  {
    var r1 :- Expect(ts, [TSemi, Plain("do")]);
    var (d, r2) :- ParseCmd(r1);
    var rest :- Expect(r2, [TSemi, Plain("done")]);
    Some((d, rest))
  }

  function ParseFor(ts: seq<Token>): (r: Option<(Cmd, seq<Token>)>)
    ensures r.Some? ==> |r.value.1| < |ts|
    decreases |ts|, 4
  {
    if |ts| < 2 || !ts[0].TWord? || ts[1] != Plain("in") then None
    else
      match ts[0].word
      case Pieces(ps) =>
        if |ps| == 1 && ps[0].Bare? && NameChars(ps[0].text) then
          var (ws, r1) := TakeWords(ts[2..]);
          var (d, rest) :- ParseDo(r1);
          Some((For(ps[0].text, ws, d), rest))
        else None
      case Quoted(_) => None
  }

  /** "; fi", "; else cmd; fi" or "; elif cmd; then cmd" and more. */
  function ParseIfTail(ts: seq<Token>): (r: Option<(seq<Elif>, Option<Cmd>, seq<Token>)>)
    ensures r.Some? ==> |r.value.2| < |ts|
    decreases |ts|, 3
  {
    if [TSemi, Plain("fi")] <= ts then Some(([], None, ts[2..]))
    else if [TSemi, Plain("else")] <= ts then
      var (e, r1) :- ParseCmd(ts[2..]);
      var rest :- Expect(r1, [TSemi, Plain("fi")]);
      Some(([], Some(e), rest))
    else
      var r1 :- Expect(ts, [TSemi, Plain("elif")]);
      var (a, r2) :- ParseCmd(r1);
      var r3 :- Expect(r2, [TSemi, Plain("then")]);
      var (b, r4) :- ParseCmd(r3);
      var (es, e, rest) :- ParseIfTail(r4);
      Some(([Elif(a, b)] + es, e, rest))
  }

  /** A whole command line. */
  function Parse(s: string): Option<Cmd> {
    var ts :- Lex(s);
    var (c, rest) :- ParseCmd(ts);
    if rest == [] then Some(c) else None
  }
}
