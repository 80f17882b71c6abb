/** Well-formed shell trees, and the proof that each printed piece is recognised as
    the tokens it stands for. */
module ShellLexing {
  import opened Text
  import opened ShellCmd
  import opened ShellParser

  // ----- well-formedness -----

  predicate PieceOk(p: Piece) {
    match p
    case Bare(s) => s != "" && BareChars(s)
    case Var(n) => NameChars(n)
    case LastExit => true
  }

  predicate PiecesOk(ps: seq<Piece>) {
    && (forall i :: 0 <= i < |ps| ==> PieceOk(ps[i]))
    && (forall i :: 0 <= i < |ps| - 1 ==> ps[i].Bare? ==> !ps[i + 1].Bare?)
  }

  predicate WordOk(w: Word) {
    match w
    case Pieces(ps) => PiecesOk(ps)
    case Quoted(s) => '\'' !in s
  }

  predicate WordsOk(ws: seq<Word>) { forall i :: 0 <= i < |ws| ==> WordOk(ws[i]) }

  /** An assigned value may also be empty. */
  predicate ValueOk(w: Word) { WordOk(w) || w == Pieces([Bare("")]) }

  predicate CommandWords(ws: seq<Word>) {
    ws != [] && WordsOk(ws) && !ReservedWord(ws[0])
  }

  /** Text that survives being put between backquotes. */
  predicate Clean(t: string) { forall i :: 0 <= i < |t| ==> CleanAt(t, i) }

  predicate CleanAt(t: string, i: nat)
    requires i < |t|
  {
    t[i] != '`' && (t[i] == '\\' ==> i + 1 < |t| && !Escapable(t[i + 1]))
  }

  predicate SubstWords(ws: seq<Word>) {
    && WordsOk(ws)
    && (forall i :: 0 <= i < |ws| ==> ws[i].Quoted? ==> Clean(ws[i].text + "'"))
    && (ws != [] ==> !ReservedWord(ws[0]))
  }

  predicate RedirOk(r: Redir) {
    r.fd >= 0 &&
    match r
    case FdFrom(_, w) => WordOk(w)
    case FdTo(_, w) => WordOk(w)
    case FdDupFrom(_, j) => j >= 0
    case FdDupTo(_, j) => j >= 0
  }

  // ----- lexing printed words -----

  lemma {:induction false} BareRunIs(t: string, rest: string)
    requires BareChars(t) && (rest == "" || !IsBareChar(rest[0]))
    ensures BareRun(t + rest) == |t|
  {
    if t == "" {
      assert t + rest == rest;
    } else {
      BareRunIs(t[1..], rest);
      assert (t + rest)[1..] == t[1..] + rest;
    }
  }

  lemma Split(a: string, b: string)
    ensures (a + b)[..|a|] == a && (a + b)[|a|..] == b
  {
  }

  function AddPiece(p: Piece, r: Option<(seq<Piece>, string)>): Option<(seq<Piece>, string)> {
    if r.None? then None else Some(([p] + r.value.0, r.value.1))
  }

  lemma LexPiecesBare(t: string, tail: string)
    requires t != "" && BareChars(t) && (tail == "" || !IsBareChar(tail[0]))
    ensures LexPieces(t + tail) == AddPiece(Bare(t), LexPieces(tail))
  {
    var s := t + tail;
    assert s[0] == t[0];
    BareRunIs(t, tail);
    Split(t, tail);
  }

  lemma LexPiecesVar(n: string, tail: string)
    requires NameChars(n)
    ensures LexPieces("${" + n + "}" + tail) == AddPiece(Var(n), LexPieces(tail))
  {
    var s := "${" + n + "}" + tail;
    var inner := n + ("}" + tail);
    assert s == "${" + inner;
    assert s[2..] == inner;
    assert s[2] == n[0];
    BareRunIs(n, "}" + tail);
    Split(n, "}" + tail);
    assert s[2..2 + |n|] == inner[..|n|];
    assert s[2 + |n|] == '}' && s[3 + |n|..] == tail;
    assert s[..4] != "${?}";
  }

  lemma LexPiecesExit(tail: string)
    ensures LexPieces("${?}" + tail) == AddPiece(LastExit, LexPieces(tail))
  {
    Split("${?}", tail);
  }

  lemma LexPiecesOne(p: Piece, tail: string)
    requires PieceOk(p) && (p.Bare? ==> tail != "" && !IsBareChar(tail[0]))
    ensures LexPieces(PieceText(p) + tail) == AddPiece(p, LexPieces(tail))
  {
    match p
    case Bare(t) => LexPiecesBare(t, tail);
    case Var(n) => LexPiecesVar(n, tail);
    case LastExit => LexPiecesExit(tail);
  }

  lemma LexPiecesEnd(rest: string)
    ensures LexPieces("\"" + rest) == Some(([], rest))
  {
    assert ("\"" + rest)[1..] == rest;
  }

  /** What follows a bare piece: the closing quote or a "$". */
  lemma AfterBare(ps: seq<Piece>, rest: string)
    requires ps != [] ==> !ps[0].Bare?
    ensures var tail := PiecesText(ps) + ("\"" + rest); tail != "" && !IsBareChar(tail[0])
  {
    if ps != [] { assert PieceText(ps[0])[0] == '$'; }
  }

  lemma PiecesTextCons(ps: seq<Piece>, end: string)
    requires ps != []
    ensures PiecesText(ps) + end == PieceText(ps[0]) + (PiecesText(ps[1..]) + end)
  {
  }

  lemma {:induction false} LexPiecesText(ps: seq<Piece>, rest: string)
    requires PiecesOk(ps)
    ensures LexPieces(PiecesText(ps) + ("\"" + rest)) == Some((ps, rest))
  {
    var end := "\"" + rest;
    if ps == [] {
      LexPiecesEnd(rest);
      assert PiecesText(ps) + end == end;
    } else {
      var tail := PiecesText(ps[1..]) + end;
      assert LexPieces(tail) == Some((ps[1..], rest)) by { LexPiecesText(ps[1..], rest); }
      assert LexPieces(PieceText(ps[0]) + tail) == AddPiece(ps[0], LexPieces(tail)) by {
        if ps[0].Bare? { AfterBare(ps[1..], rest); }
        LexPiecesOne(ps[0], tail);
      }
      assert PiecesText(ps) + end == PieceText(ps[0]) + tail by { PiecesTextCons(ps, end); }
      assert [ps[0]] + ps[1..] == ps;
    }
  }

  lemma {:induction false} FindIs(t: string, c: char, rest: string)
    requires c !in t
    ensures Find(t + ([c] + rest), c) == |t|
  {
    if t == "" {
      assert t + ([c] + rest) == [c] + rest;
    } else {
      FindIs(t[1..], c, rest);
      assert (t + ([c] + rest))[1..] == t[1..] + ([c] + rest);
    }
  }

  lemma LexQuoted(t: string, rest: string)
    requires '\'' !in t
    ensures LexWord("'" + t + "'" + rest) == Some((Quoted(t), rest))
  {
    var s := "'" + t + "'" + rest;
    var inner := t + ("'" + rest);
    assert s[1..] == inner;
    FindIs(t, '\'', rest);
    assert inner[..|t|] == t && inner[|t| + 1..] == rest;
  }

  lemma LexDouble(body: string)
    ensures LexWord("\"" + body) ==
      var r := LexPieces(body); if r.None? then None else Some((Pieces(r.value.0), r.value.1))
  {
    assert ("\"" + body)[1..] == body;
  }

  lemma Enclosed(a: string, b: string, c: string, d: string)
    ensures a + b + c + d == a + (b + (c + d))
  {
  }

  lemma LexDoubleText(ps: seq<Piece>, rest: string)
    requires PiecesOk(ps)
    ensures LexWord("\"" + PiecesText(ps) + "\"" + rest) == Some((Pieces(ps), rest))
  {
    LexPiecesText(ps, rest);
    LexDouble(PiecesText(ps) + ("\"" + rest));
    Enclosed("\"", PiecesText(ps), "\"", rest);
  }

  lemma LexBare(t: string, rest: string)
    requires t != "" && BareChars(t) && (rest == "" || !IsBareChar(rest[0]))
    ensures LexWord(t + rest) == Some((Pieces([Bare(t)]), rest))
  {
    BareRunIs(t, rest);
    Split(t, rest);
    assert (t + rest)[0] == t[0];
  }

  /** The two looks a printed word can have. */
  lemma WordShape(w: Word)
    requires WordOk(w)
    ensures WordText(w) != ""
    ensures WordText(w)[0] in {'\'', '"'} || (BareChars(WordText(w)) && w == Pieces([Bare(WordText(w))]))
  {
    if w.Pieces? && |w.pieces| == 1 && w.pieces[0].Bare? {
      assert w.pieces == [Bare(w.pieces[0].text)];
    }
  }

  lemma LexWordText(w: Word, rest: string)
    requires WordOk(w) && (rest == "" || !IsBareChar(rest[0]))
    ensures LexWord(WordText(w) + rest) == Some((w, rest))
  {
    match w
    case Quoted(t) => LexQuoted(t, rest);
    case Pieces(ps) =>
      if |ps| == 1 && ps[0].Bare? {
        LexBare(ps[0].text, rest);
        assert ps == [Bare(ps[0].text)];
      } else {
        LexDoubleText(ps, rest);
      }
  }

  lemma WordsTextCons(ws: seq<Word>)
    requires |ws| > 1
    ensures WordsText(ws) == WordText(ws[0]) + (" " + WordsText(ws[1..]))
    ensures WordsText(ws) == WordText(ws[0]) + " " + WordsText(ws[1..])
  {
    assert WordTexts(ws)[1..] == WordTexts(ws[1..]);
  }

  lemma LexWordsCons(w: Word, rest: string)
    requires WordOk(w) && AtDelim(rest)
    ensures LexWords(WordText(w) + rest) ==
      match LexWords(rest) { case None => None case Some(ws) => Some([w] + ws) }
  {
    LexWordText(w, rest);
    WordShape(w);
    assert (WordText(w) + rest)[0] == WordText(w)[0];
  }

  lemma LexWordsBlank(s: string)
    ensures LexWords(" " + s) == LexWords(s)
  {
    assert (" " + s)[1..] == s;
  }

  lemma WordsTextOne(ws: seq<Word>)
    requires |ws| == 1
    ensures WordsText(ws) == WordText(ws[0]) + ""
  {
  }

  lemma LexWordsOne(w: Word)
    requires WordOk(w)
    ensures LexWords(WordText(w) + "") == Some([w])
  {
    LexWordsCons(w, "");
    assert [w] + [] == [w];
  }

  lemma LexWordsMore(w: Word, ws: seq<Word>, t: string)
    requires WordOk(w) && LexWords(t) == Some(ws)
    ensures LexWords(WordText(w) + (" " + t)) == Some([w] + ws)
  {
    LexWordsBlank(t);
    LexWordsCons(w, " " + t);
  }

  lemma {:induction false} LexWordsText(ws: seq<Word>)
    requires WordsOk(ws)
    ensures LexWords(WordsText(ws)) == Some(ws)
  {
    if |ws| == 1 {
      WordsTextOne(ws);
      LexWordsOne(ws[0]);
      assert [ws[0]] == ws;
    } else if |ws| > 1 {
      LexWordsText(ws[1..]);
      WordsTextCons(ws);
      LexWordsMore(ws[0], ws[1..], WordsText(ws[1..]));
      assert [ws[0]] + ws[1..] == ws;
    }
  }

  lemma CleanConcat(a: string, b: string)
    requires Clean(a) && Clean(b)
    ensures Clean(a + b)
  {
    forall i | 0 <= i < |a + b| ensures CleanAt(a + b, i) {
      if i < |a| { assert CleanAt(a, i); } else { assert CleanAt(b, i - |a|); }
    }
  }

  lemma {:induction false} PiecesClean(ps: seq<Piece>)
    requires PiecesOk(ps)
    ensures Clean(PiecesText(ps))
  {
    if ps != [] {
      PiecesClean(ps[1..]);
      assert Clean(PieceText(ps[0]));
      CleanConcat(PieceText(ps[0]), PiecesText(ps[1..]));
    }
  }

  lemma WordClean(w: Word)
    requires WordOk(w) && (w.Quoted? ==> Clean(w.text + "'"))
    ensures Clean(WordText(w))
  {
    match w
    case Quoted(t) =>
      CleanConcat("'", t + "'");
      assert WordText(w) == "'" + (t + "'");
    case Pieces(ps) =>
      PiecesClean(ps);
      CleanConcat("\"", PiecesText(ps));
      CleanConcat("\"" + PiecesText(ps), "\"");
  }

  lemma {:induction false} WordsClean(ws: seq<Word>)
    requires SubstWords(ws)
    ensures Clean(WordsText(ws))
  {
    if ws != [] {
      WordClean(ws[0]);
      if |ws| > 1 {
        assert Clean(WordsText(ws[1..])) by { WordsCleanTail(ws[1..]); }
        WordsTextCons(ws);
        CleanConcat(WordText(ws[0]), " ");
        CleanConcat(WordText(ws[0]) + " ", WordsText(ws[1..]));
      }
    }
  }

  lemma {:induction false} WordsCleanTail(ws: seq<Word>)
    requires WordsOk(ws) && forall i :: 0 <= i < |ws| ==> ws[i].Quoted? ==> Clean(ws[i].text + "'")
    ensures Clean(WordsText(ws))
  {
    if ws != [] {
      WordClean(ws[0]);
      if |ws| > 1 {
        WordsCleanTail(ws[1..]);
        WordsTextCons(ws);
        CleanConcat(WordText(ws[0]), " ");
        CleanConcat(WordText(ws[0]) + " ", WordsText(ws[1..]));
      }
    }
  }

  lemma {:induction false} LexBackquotedText(t: string, rest: string)
    requires Clean(t)
    ensures LexBackquoted(t + ("`" + rest)) == Some((t, rest))
  {
    var s := t + ("`" + rest);
    if t == "" {
      assert s == "`" + rest;
    } else {
      assert CleanAt(t, 0);
      forall i | 0 <= i < |t[1..]| ensures CleanAt(t[1..], i) { assert CleanAt(t, i + 1); }
      LexBackquotedText(t[1..], rest);
      assert s[0] == t[0] && s[1..] == t[1..] + ("`" + rest);
      if t[0] == '\\' { assert s[1] == t[1]; }
      assert [t[0]] + t[1..] == t;
    }
  }

  // ----- lexing printed tokens -----

  function Prepend(ts: seq<Token>, r: Option<seq<Token>>): Option<seq<Token>> {
    if r.None? then None else Some(ts + r.value)
  }

  lemma PrependTwice(x: seq<Token>, y: seq<Token>, r: Option<seq<Token>>)
    ensures Prepend(x, Prepend(y, r)) == Prepend(x + y, r)
  {
    if r.Some? { assert x + (y + r.value) == x + y + r.value; }
  }

  ghost predicate LexesBefore(t: string, ts: seq<Token>, rest: string) {
    Lex(t + rest) == Prepend(ts, Lex(rest))
  }

  /** In front of anything that starts at a delimiter, the text reads as the tokens. */
  ghost predicate Lexes(t: string, ts: seq<Token>) {
    forall rest :: AtDelim(rest) ==> LexesBefore(t, ts, rest)
  }

  lemma LexOne(s: string, t: Token, rest: string)
    requires s != "" && s[0] != ' ' && LexToken(s) == Some((t, rest)) && AtDelim(rest)
    ensures Lex(s) == Prepend([t], Lex(rest))
  {
  }

  lemma LexTokenWord(w: Word, rest: string)
    requires WordOk(w) && AtDelim(rest)
    ensures LexToken(WordText(w) + rest) == Some((TWord(w), rest))
  {
    var t := WordText(w);
    LexWordText(w, rest);
    WordShape(w);
    assert (t + rest)[0] == t[0];
    if t[0] !in {'\'', '"'} {
      BareRunIs(t, rest);
      if rest != "" { assert (t + rest)[|t|] == rest[0]; }
    }
  }

  lemma LexesWord(w: Word)
    requires WordOk(w)
    ensures Lexes(WordText(w), [TWord(w)])
  {
    forall rest | AtDelim(rest) ensures LexesBefore(WordText(w), [TWord(w)], rest) {
      LexTokenWord(w, rest);
      WordShape(w);
      LexOne(WordText(w) + rest, TWord(w), rest);
    }
  }

  lemma LexesPlain(s: string)
    requires s != "" && BareChars(s)
    ensures Lexes(s, [Plain(s)])
  {
    LexesWord(Pieces([Bare(s)]));
  }

  lemma LexTokenAssign(n: string, s: string)
    requires NameChars(n)
    ensures LexToken(n + ("=" + s)) == LexValue(n, s)
  {
    var after := "=" + s;
    var t := n + after;
    BareRunIs(n, after);
    Split(n, after);
    assert t[0] == n[0] && t[|n|] == after[0];
    assert t[|n| + 1..] == t[|n|..][1..] == after[1..] == s;
  }

  lemma ValueIsWord(n: string, s: string, w: Word, rest: string)
    requires !AtDelim(s) && s[0] != '`' && LexWord(s) == Some((w, rest))
    ensures LexValue(n, s) == Some((TAssign(n, w), rest))
  {
    hide LexWord, LexBackquoted, LexWords, AtDelim;
  }

  lemma ValueIsEmpty(n: string, rest: string)
    requires AtDelim(rest)
    ensures LexValue(n, rest) == Some((TAssign(n, Pieces([Bare("")])), rest))
  {
    hide LexWord, LexBackquoted, LexWords, AtDelim;
  }

  lemma LexValueText(n: string, v: Word, rest: string)
    requires ValueOk(v) && AtDelim(rest)
    ensures LexValue(n, WordText(v) + rest) == Some((TAssign(n, v), rest))
  {
    hide LexValue, LexWord;
    if v == Pieces([Bare("")]) {
      assert WordText(v) + rest == rest;
      ValueIsEmpty(n, rest);
    } else {
      LexWordText(v, rest);
      WordShape(v);
      assert (WordText(v) + rest)[0] == WordText(v)[0];
      ValueIsWord(n, WordText(v) + rest, v, rest);
    }
  }

  lemma LexesAssign(n: string, v: Word)
    requires NameChars(n) && ValueOk(v)
    ensures Lexes(n + "=" + WordText(v), [TAssign(n, v)])
  {
    var t := n + "=" + WordText(v);
    forall rest | AtDelim(rest) ensures LexesBefore(t, [TAssign(n, v)], rest) {
      assert t + rest == n + ("=" + (WordText(v) + rest));
      assert (t + rest)[0] == n[0];
      LexTokenAssign(n, WordText(v) + rest);
      LexValueText(n, v, rest);
      LexOne(t + rest, TAssign(n, v), rest);
    }
  }

  lemma LexValueSubst(n: string, ws: seq<Word>, rest: string)
    requires SubstWords(ws)
    ensures LexValue(n, "`" + (WordsText(ws) + ("`" + rest))) == Some((TAssignSub(n, ws), rest))
  {
    WordsClean(ws);
    LexBackquotedText(WordsText(ws), rest);
    LexWordsText(ws);
    assert ("`" + (WordsText(ws) + ("`" + rest)))[1..] == WordsText(ws) + ("`" + rest);
  }

  lemma LexesAssignSub(n: string, ws: seq<Word>)
    requires NameChars(n) && SubstWords(ws)
    ensures Lexes(n + "=`" + WordsText(ws) + "`", [TAssignSub(n, ws)])
  {
    var t := n + "=`" + WordsText(ws) + "`";
    forall rest | AtDelim(rest) ensures LexesBefore(t, [TAssignSub(n, ws)], rest) {
      var value := "`" + (WordsText(ws) + ("`" + rest));
      assert t + rest == n + ("=" + value);
      assert (t + rest)[0] == n[0];
      LexTokenAssign(n, value);
      LexValueSubst(n, ws, rest);
      LexOne(t + rest, TAssignSub(n, ws), rest);
    }
  }

  lemma LexTokenIsRedir(s: string, n: nat)
    requires 0 < n < |s| && n == BareRun(s) && s[n] in {'<', '>'} && AllDigits(s[..n])
    ensures LexToken(s) == LexRedir(Value(s[..n]), s[n] == '<', s[n + 1..])
  {
    hide BareRun, Value, LexRedir, LexWord, LexValue, NameChars;
    assert s[0] == s[..n][0];
  }

  lemma LexTokenRedir(fd: nat, op: char, s: string)
    requires op in {'<', '>'}
    ensures LexToken(Decimal(fd) + ([op] + s)) == LexRedir(fd, op == '<', s)
  {
    hide LexToken, LexRedir, BareRun;
    var d := Decimal(fd);
    var t := d + ([op] + s);
    DecimalValue(fd);
    BareRunIs(d, [op] + s);
    Split(d, [op] + s);
    assert t[|d| + 1..] == s;
    LexTokenIsRedir(t, |d|);
  }

  lemma LexRedirDup(fd: nat, from: bool, other: nat, rest: string)
    requires AtDelim(rest)
    ensures LexRedir(fd, from, "&" + (Decimal(other) + rest))
      == Some((TRedir(if from then FdDupFrom(fd, other) else FdDupTo(fd, other)), rest))
  {
    DecimalValue(other);
    BareRunIs(Decimal(other), rest);
    Split(Decimal(other), rest);
    assert ("&" + (Decimal(other) + rest))[1..] == Decimal(other) + rest;
  }

  lemma LexRedirFile(fd: nat, from: bool, w: Word, rest: string)
    requires WordOk(w) && AtDelim(rest)
    ensures LexRedir(fd, from, WordText(w) + rest)
      == Some((TRedir(if from then FdFrom(fd, w) else FdTo(fd, w)), rest))
  {
    LexWordText(w, rest);
    WordShape(w);
    assert (WordText(w) + rest)[0] == WordText(w)[0];
  }

  function TargetText(r: Redir): string {
    match r
    case FdFrom(_, w) => WordText(w)
    case FdTo(_, w) => WordText(w)
    case FdDupFrom(_, j) => "&" + IntText(j)
    case FdDupTo(_, j) => "&" + IntText(j)
  }

  function OpChar(r: Redir): char { if r.FdFrom? || r.FdDupFrom? then '<' else '>' }

  lemma RedirParts(r: Redir)
    requires RedirOk(r)
    ensures RedirText(r) == Decimal(r.fd) + ([OpChar(r)] + TargetText(r))
  {
  }

  lemma Assoc(a: string, b: string, c: string)
    ensures a + b + c == a + (b + c)
  {
  }

  lemma LexRedirTarget(r: Redir, rest: string)
    requires RedirOk(r) && AtDelim(rest)
    ensures LexRedir(r.fd, OpChar(r) == '<', TargetText(r) + rest) == Some((TRedir(r), rest))
  {
    if r.FdFrom? {
      LexRedirFile(r.fd, true, r.source, rest);
    } else if r.FdTo? {
      LexRedirFile(r.fd, false, r.target, rest);
    } else {
      LexRedirDup(r.fd, r.FdDupFrom?, r.other, rest);
      Assoc("&", Decimal(r.other), rest);
    }
  }

  lemma Regroup(a: string, b: string, c: string, d: string)
    ensures a + (b + c) + d == a + (b + (c + d))
  {
  }

  lemma LexTokenRedirText(r: Redir, rest: string)
    requires RedirOk(r) && AtDelim(rest)
    ensures LexToken(RedirText(r) + rest) == Some((TRedir(r), rest))
  {
    assert LexToken(Decimal(r.fd) + ([OpChar(r)] + (TargetText(r) + rest))) == Some((TRedir(r), rest)) by {
      LexTokenRedir(r.fd, OpChar(r), TargetText(r) + rest);
      LexRedirTarget(r, rest);
    }
    RedirParts(r);
    Regroup(Decimal(r.fd), [OpChar(r)], TargetText(r), rest);
  }

  lemma LexesRedir(r: Redir)
    requires RedirOk(r)
    ensures Lexes(RedirText(r), [TRedir(r)])
  {
    forall rest | AtDelim(rest) ensures LexesBefore(RedirText(r), [TRedir(r)], rest) {
      LexTokenRedirText(r, rest);
      assert (RedirText(r) + rest)[0] == Decimal(r.fd)[0];
      LexOne(RedirText(r) + rest, TRedir(r), rest);
    }
  }

  // ----- gluing -----

  /** A separator that reads as the tokens m whatever follows it. */
  ghost predicate Separates(sep: string, m: seq<Token>) {
    sep != "" && AtDelim(sep) && forall s :: LexesBefore(sep, m, s)
  }

  lemma GlueAt(a: string, x: seq<Token>, sep: string, m: seq<Token>, b: string, y: seq<Token>,
               rest: string)
    requires LexesBefore(a, x, sep + (b + rest))
    requires LexesBefore(sep, m, b + rest)
    requires LexesBefore(b, y, rest)
    ensures LexesBefore(a + sep + b, x + m + y, rest)
  {
    PrependTwice(m, y, Lex(rest));
    PrependTwice(x, m + y, Lex(rest));
    assert x + (m + y) == x + m + y;
    assert a + sep + b + rest == a + (sep + (b + rest));
  }

  lemma LexesGlue(a: string, x: seq<Token>, sep: string, m: seq<Token>, b: string, y: seq<Token>)
    requires Lexes(a, x) && Lexes(b, y) && Separates(sep, m)
    ensures Lexes(a + sep + b, x + m + y)
  {
    forall rest | AtDelim(rest) ensures LexesBefore(a + sep + b, x + m + y, rest) {
      assert (sep + (b + rest))[0] == sep[0];
      GlueAt(a, x, sep, m, b, y, rest);
    }
  }

  lemma LexBlank(s: string)
    ensures Lex(" " + s) == Lex(s)
  {
    assert (" " + s)[1..] == s;
  }

  lemma SeparatesOp(op: string, t: Token)
    requires (op, t) in {("|", TPipe), ("&&", TAnd), ("||", TOr)}
    ensures Separates(" " + op + " ", [t])
  {
    forall s ensures LexesBefore(" " + op + " ", [t], s) {
      var u := op + (" " + s);
      assert " " + op + " " + s == " " + u;
      LexBlank(u);
      LexBlank(s);
      assert u[|op|..] == " " + s;
      LexOne(u, t, " " + s);
    }
  }

  lemma SeparatesSemi()
    ensures Separates("; ", [TSemi])
  {
    forall s ensures LexesBefore("; ", [TSemi], s) {
      assert ("; " + s)[1..] == " " + s;
      LexBlank(s);
    }
  }

  lemma SeparatesBlank()
    ensures Separates(" ", [])
  {
    forall s ensures LexesBefore(" ", [], s) {
      LexBlank(s);
      if Lex(s).Some? { assert [] + Lex(s).value == Lex(s).value; }
    }
  }

  lemma PrependNothing(x: seq<Token>, y: seq<Token>)
    ensures x + [] + y == x + y
  {
  }

  lemma LexesBlank(a: string, x: seq<Token>, b: string, y: seq<Token>)
    requires Lexes(a, x) && Lexes(b, y)
    ensures Lexes(a + " " + b, x + y)
  {
    SeparatesBlank();
    LexesGlue(a, x, " ", [], b, y);
    PrependNothing(x, y);
  }

  lemma LexesSemi(a: string, x: seq<Token>, b: string, y: seq<Token>)
    requires Lexes(a, x) && Lexes(b, y)
    ensures Lexes(a + "; " + b, x + [TSemi] + y)
  {
    SeparatesSemi();
    LexesGlue(a, x, "; ", [TSemi], b, y);
  }

  lemma LexesOpen()
    ensures Lexes("{", [TOpen])
  {
    forall rest | AtDelim(rest) ensures LexesBefore("{", [TOpen], rest) {
      assert ("{" + rest)[1..] == rest;
    }
  }

  lemma LexesClose()
    ensures Lexes("}", [TClose])
  {
    forall rest | AtDelim(rest) ensures LexesBefore("}", [TClose], rest) {
      assert ("}" + rest)[1..] == rest;
    }
  }

  function WordTokens(ws: seq<Word>): (ts: seq<Token>)
    ensures |ts| == |ws|
  {
    seq(|ws|, i requires 0 <= i < |ws| => TWord(ws[i]))
  }

  lemma {:induction false} LexesWords(ws: seq<Word>)
    requires ws != [] && WordsOk(ws)
    ensures Lexes(WordsText(ws), WordTokens(ws))
  {
    LexesWord(ws[0]);
    if |ws| == 1 {
      assert WordTokens(ws) == [TWord(ws[0])];
      assert WordsText(ws) == WordText(ws[0]);
    } else {
      LexesWords(ws[1..]);
      WordsTextCons(ws);
      LexesBlank(WordText(ws[0]), [TWord(ws[0])], WordsText(ws[1..]), WordTokens(ws[1..]));
      assert WordTokens(ws) == [TWord(ws[0])] + WordTokens(ws[1..]);
    }
  }
}
