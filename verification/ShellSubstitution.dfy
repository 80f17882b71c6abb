/** Backquoted substitutions read back exactly when no quoted word holds a backquote or
    a backslash that backquotes would strip. Section 2.6.3 of XCU chapter 2 leaves a quoted
    string that begins inside backquotes and holds one undefined; the reference reader ends
    the substitution at the first backquote not escaped, and that a quoted backquote does not
    read back rests on this choice. */
module ShellSubstitution {
  import opened Text
  import opened ShellCmd
  import opened ShellParser
  import opened ShellLexing
  import opened ShellPrinting
  import opened ShellRoundTrip

  predicate BackquoteSafe(ws: seq<Word>) {
    forall i :: 0 <= i < |ws| ==> ws[i].Quoted? ==> Clean(ws[i].text + "'")
  }

  // ----- a lexed text is at least as long as the printed words -----

  lemma {:induction false} PiecesNotLonger(s: string)
    ensures var r := LexPieces(s);
      r.Some? ==> |PiecesText(r.value.0)| + 1 + |r.value.1| <= |s|
    decreases |s|
  {
    if s != "" && s[0] != '"' {
      if s[0] == '$' {
        if |s| >= 4 && s[..4] == "${?}" {
          PiecesNotLonger(s[4..]);
        } else if |s| >= 2 && s[1] == '{' {
          var n := BareRun(s[2..]);
          if 2 + n < |s| { PiecesNotLonger(s[3 + n..]); }
        }
      } else {
        var n := BareRun(s);
        if n > 0 { PiecesNotLonger(s[n..]); }
      }
    }
  }

  lemma WordNotLonger(s: string)
    ensures var r := LexWord(s); r.Some? ==> |WordText(r.value.0)| + |r.value.1| <= |s|
  {
    if s != "" && s[0] == '"' { PiecesNotLonger(s[1..]); }
  }

  lemma {:induction false} WordsNotLonger(s: string)
    ensures LexWords(s).Some? ==> |WordsText(LexWords(s).value)| <= |s|
    decreases |s|
  {
    if s != "" {
      if s[0] == ' ' {
        WordsNotLonger(s[1..]);
      } else if LexWord(s).Some? {
        var (w, rest) := LexWord(s).value;
        WordNotLonger(s);
        if AtDelim(rest) && LexWords(rest).Some? {
          var ws := LexWords(rest).value;
          WordsNotLonger(rest);
          if ws != [] {
            RestHasBlank(rest);
            WordsTextCons([w] + ws);
            assert ([w] + ws)[1..] == ws;
          } else {
            WordsTextOne([w]);
            assert [w] + ws == [w];
          }
        }
      }
    }
  }

  lemma RestHasBlank(rest: string)
    requires AtDelim(rest) && LexWords(rest).Some? && LexWords(rest).value != []
    ensures |WordsText(LexWords(rest).value)| < |rest|
    decreases |rest|
  {
    assert rest[0] == ' ';
    WordsNotLonger(rest[1..]);
  }

  // ----- what a complete backquoted text says about its content -----

  lemma {:induction false} UnescapedIsClean(t: string)
    requires LexBackquoted(t + "`").Some?
    requires LexBackquoted(t + "`").value.1 == "" && |LexBackquoted(t + "`").value.0| >= |t|
    ensures Clean(t)
  {
    var s := t + "`";
    if t != "" {
      assert s[0] == t[0] && s[1..] == t[1..] + "`";
      if s[0] == '`' {
        assert false;
      } else if s[0] == '\\' && Escapable(s[1]) {
        BackquotedShorter(s[2..]);
      } else {
        UnescapedIsClean(t[1..]);
        forall i | 0 <= i < |t| ensures CleanAt(t, i) {
          if i > 0 { assert CleanAt(t[1..], i - 1); } else { assert |t| > 1 ==> s[1] == t[1]; }
        }
      }
    }
  }

  lemma {:induction false} BackquotedShorter(s: string)
    ensures LexBackquoted(s).Some? ==> |LexBackquoted(s).value.0| + |LexBackquoted(s).value.1| < |s|
  {
  }

  /** The rest after a backquoted text is a suffix, so it never ends in a blank here. */
  lemma {:induction false} BackquotedSuffix(s: string)
    ensures var r := LexBackquoted(s); r.Some? ==>
      |r.value.1| <= |s| && r.value.1 == s[|s| - |r.value.1|..]
    decreases |s|
  {
    if s != "" && s[0] != '`' {
      if s[0] == '\\' && |s| > 1 && Escapable(s[1]) {
        BackquotedSuffix(s[2..]);
      } else {
        BackquotedSuffix(s[1..]);
      }
    }
  }

  lemma {:induction false} OnlyBlanks(s: string)
    requires Lex(s) == Some([])
    ensures s == "" || s[|s| - 1] == ' '
  {
    if s != "" {
      assert s[0] == ' ';
      OnlyBlanks(s[1..]);
    }
  }

  lemma {:induction false} CleanWords(ws: seq<Word>)
    requires Clean(WordsText(ws))
    ensures BackquoteSafe(ws)
  {
    if ws != [] {
      var rest := if |ws| == 1 then "" else " " + WordsText(ws[1..]);
      if |ws| == 1 { WordsTextOne(ws); } else { WordsTextCons(ws); }
      var t := WordsText(ws);
      assert t == WordText(ws[0]) + rest;
      if |ws| > 1 {
        var k := |WordText(ws[0])| + 1;
        assert t[k..] == WordsText(ws[1..]);
        CleanSuffix(t, k);
        CleanWords(ws[1..]);
      }
      if ws[0].Quoted? { CleanQuoted(ws[0].text, rest); }
      forall i | 0 <= i < |ws| && ws[i].Quoted? ensures Clean(ws[i].text + "'") {
        if i > 0 { assert ws[i] == ws[1..][i - 1]; }
      }
    }
  }

  lemma CleanQuoted(q: string, rest: string)
    requires Clean("'" + q + "'" + rest)
    ensures Clean(q + "'")
  {
    var t, u := "'" + q + "'" + rest, q + "'";
    forall i | 0 <= i < |u| ensures CleanAt(u, i) {
      assert CleanAt(t, i + 1);
      assert t[i + 1] == u[i] && (i + 1 < |u| ==> t[i + 2] == u[i + 1]);
    }
  }

  lemma CleanSuffix(t: string, k: nat)
    requires Clean(t) && k <= |t|
    ensures Clean(t[k..])
  {
    forall i | 0 <= i < |t[k..]| ensures CleanAt(t[k..], i) { assert CleanAt(t, i + k); }
  }

  // ----- one token -----

  lemma {:induction false} RedirsRemain(c: Cmd, ts: seq<Token>)
    requires ts != [] && ts[0].TRedir?
    ensures ParseRedirs(c, ts).0.Redirect?
    decreases |ts|
  {
    if |ts| > 1 && ts[1].TRedir? { RedirsRemain(Redirect(c, ts[0].redir), ts[1..]); }
  }

  lemma SingleToken(ts: seq<Token>, n: string, ws: seq<Word>)
    requires ParseCmd(ts) == Some((DefSub(n, ws), []))
    ensures ts == [TAssignSub(n, ws)]
  {
    var (c, rest) := ParseCore(ts).value;
    if rest != [] && rest[0].TRedir? { RedirsRemain(c, rest); }
    assert rest == [] && c == DefSub(n, ws);
    hide ParseCmd, ParseGroup, ParseLoop, ParseFor, ParseIfTail;
    assert ts[0] == TAssignSub(n, ws) by { CoreDefSub(ts, n, ws); }
    assert ts[1..] == rest;
  }

  lemma CoreDefSub(ts: seq<Token>, n: string, ws: seq<Word>)
    requires ParseCore(ts) == Some((DefSub(n, ws), []))
    ensures ts != [] && ts[0] == TAssignSub(n, ws)
  {
    hide ParseCmd, ParseLoop, ParseIfTail, ParseDo, ParseList;
  }

  /** A substitution reads back as itself exactly when backquotes leave its words alone. */
  lemma SubstitutionReadsBackIff(n: string, ws: seq<Word>)
    requires NameChars(n) && WordsOk(ws) && (ws != [] ==> !ReservedWord(ws[0]))
    ensures Parse(CmdText(DefSub(n, ws))) == Some(DefSub(n, ws)) <==> BackquoteSafe(ws)
  {
    var c := DefSub(n, ws);
    if BackquoteSafe(ws) {
      RoundTrip(c);
    } else if Parse(CmdText(c)) == Some(c) {
      SafeIfReadBack(n, ws);
    }
  }

  lemma SafeIfReadBack(n: string, ws: seq<Word>)
    requires NameChars(n) && Parse(CmdText(DefSub(n, ws))) == Some(DefSub(n, ws))
    ensures BackquoteSafe(ws)
  {
    var t := WordsText(ws);
    var s := CmdText(DefSub(n, ws));
    var ts := Lex(s).value;
    assert ts == [TAssignSub(n, ws)] by { SingleToken(ts, n, ws); }
    assert s == n + ("=" + ("`" + (t + "`")));
    assert s[0] == n[0];
    LexTokenAssign(n, "`" + (t + "`"));
    assert ("`" + (t + "`"))[1..] == t + "`";
    var (u, rest) := LexBackquoted(t + "`").value;
    var tok := LexToken(s).value.0;
    assert ts == [tok] + Lex(rest).value;
    assert tok == ts[0] && Lex(rest).value == ts[1..] == [];
    OnlyBlanks(rest);
    BackquotedSuffix(t + "`");
    WordsNotLonger(u);
    UnescapedIsClean(t);
    CleanWords(ws);
  }

  function BackquotedWords(): seq<Word> { [Pieces([Bare("echo")]), Quoted("`")] }

  lemma BackquotedWordsText()
    ensures CmdPrints(DefSub("x", BackquotedWords())) && CmdText(DefSub("x", BackquotedWords())) == "x=`echo '`'`"
  {
    var ws := BackquotedWords();
    assert WordText(ws[0]) == "echo" && WordText(ws[1]) == "'`'";
    assert WordTexts(ws) == ["echo", "'`'"] && ["echo", "'`'"][1..] == ["'`'"];
    assert Join(["echo", "'`'"], " ") == "echo" + " " + Join(["'`'"], " ") == "echo '`'";
  }

  lemma BackquotedWordsOk()
    ensures WordsOk(BackquotedWords()) && !ReservedWord(BackquotedWords()[0]) && !BackquoteSafe(BackquotedWords())
  {
    var t := BackquotedWords()[1].text + "'";
    assert t[0] == '`' && !CleanAt(t, 0);
    assert !Clean(t);
  }

  /** A quoted backquote ends the substitution early: the words are well formed, the text
      prints, and it does not read back. */
  lemma QuotedBackquoteLost()
    ensures ToString(DefSub("x", BackquotedWords())) == Printed("x=`echo '`'`")
    ensures Parse("x=`echo '`'`") != Some(DefSub("x", BackquotedWords()))
  {
    hide Parse, BackquotedWords, CmdText, CmdPrints, WordsOk, BackquoteSafe, ReservedWord;
    BackquotedWordsText();
    BackquotedWordsOk();
    assert NameChars("x");
    SubstitutionReadsBackIff("x", BackquotedWords());
  }
}
