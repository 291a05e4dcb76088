/**
  The shell's parser (sh.c) drops nothing and makes nothing up: the words of the command are the words of
  the line, each as often as it stands there.
 */
module ShellWords {
  import opened Shell
  import opened ShellParser
  import opened ShellBlanks

  /** The words of the line from i on. */
  ghost function WordsFrom(s: string, i: nat): (r: multiset<Word>)
    requires i <= |s|
    decreases |s| - i
  {
    var t := GetToken(s, i);
    if t.kind == NUL then multiset{} else TokenEnds(s, i); One(t) + WordsFrom(s, t.word.eq)
  }

  function One(t: Token): multiset<Word> {
    if t.kind == 'a' then multiset{t.word} else multiset{}
  }

  ghost function FilesOf(rs: seq<Redirection<Word>>): multiset<Word> {
    if rs == [] then multiset{} else FilesOf(rs[..|rs| - 1]) + multiset{rs[|rs| - 1].file}
  }

  ghost function WordsOf(c: Cmd<Word>): multiset<Word> {
    multiset(Words(c))
  }

  lemma {:induction false} SkipWords(s: string, i: nat)
    requires i <= |s|
    ensures WordsFrom(s, SkipSpace(s, i)) == WordsFrom(s, i)
  {
    hide GetToken, SkipSpace;
    TokenFromBlanks(s, i, "");
  }

  /** gettoken takes the first word, if the token is one. */
  lemma {:induction false} NextWords(s: string, i: nat)
    requires i <= |s|
    ensures var t := GetToken(s, i);
      t.next <= |s| && WordsFrom(s, i) == (if t.kind == NUL then multiset{} else One(t) + WordsFrom(s, t.next))
  {
    hide GetToken, SkipSpace;
    TokenEnds(s, i);
    SkipWords(s, GetToken(s, i).word.eq);
  }

  lemma {:induction false} PeekIsSymbol(s: string, i: nat, toks: string)
    requires i <= |s| && Symbols(toks) && Peek(s, i, toks)
    ensures GetToken(s, i).kind != 'a' && GetToken(s, i).kind != NUL
    ensures WordsFrom(s, i) == WordsFrom(s, GetToken(s, i).next)
  {
    hide SkipSpace, IsWord, WordsFrom;
    NextWords(s, i);
  }

  lemma {:induction false} WrapWords(c: Cmd<Word>, rs: seq<Redirection<Word>>)
    ensures WordsOf(Wrap(c, rs)) == WordsOf(c) + FilesOf(rs)
  {
    if |rs| > 0 {
      WrapWords(c, rs[..|rs| - 1]);
    }
  }

  lemma {:induction false} OneMoreFile(rs: seq<Redirection<Word>>, r: Redirection<Word>)
    ensures FilesOf(rs + [r]) == FilesOf(rs) + multiset{r.file}
  {
    assert (rs + [r])[..|rs|] == rs;
  }

  lemma {:induction false} RedirsWords(s: string, i: nat, rs: seq<Redirection<Word>>)
    requires i <= |s|
    ensures var r := ParseRedirs(s, i, rs);
      r.Ok? ==> FilesOf(rs) + WordsFrom(s, i) == FilesOf(r.value) + WordsFrom(s, r.pos)
    decreases |s| - i
  {
    hide ParseRedirs, GetToken, SkipSpace, Peek, WordsFrom, FilesOf;
    RedirsUnfold(s, i, rs);
    if Peek(s, i, "<>") {
      PeekIsSymbol(s, i, "<>");
      var op := GetToken(s, i);
      var f := GetToken(s, op.next);
      NextWords(s, op.next);
      if f.kind == 'a' {
        var r := Redirection(f.word, op.kind == '<');
        OneMoreFile(rs, r);
        RedirsWords(s, f.next, rs + [r]);
      }
    } else {
      SkipWords(s, i);
    }
  }

  lemma {:induction false} Swap(a: multiset<Word>, f: multiset<Word>, w: Word, rest: multiset<Word>)
    ensures a + f + (multiset{w} + rest) == (a + multiset{w}) + (f + rest)
  {
  }

  lemma {:induction false} ArgsWords(s: string, i: nat, args: seq<Word>, rs: seq<Redirection<Word>>)
    requires i <= |s|
    ensures var r := ParseArgs(s, i, args, rs);
      r.Ok? ==> multiset(args) + FilesOf(rs) + WordsFrom(s, i) == WordsOf(r.value) + WordsFrom(s, r.pos)
    decreases |s| - i
  {
    hide ParseArgs, ParseRedirs, GetToken, SkipSpace, Peek, WordsFrom, FilesOf, Wrap, Good;
    ArgsUnfold(s, i, args, rs);
    var t := GetToken(s, i);
    NextWords(s, i);
    if Peek(s, i, "|)&;") || t.kind == NUL {
      WrapWords(Exec(args), rs);
      SkipWords(s, i);
    } else if t.kind == 'a' && |args| + 1 < MAXARGS {
      RedirsWords(s, t.next, rs);
      var ra := ParseRedirs(s, t.next, rs);
      if ra.Ok? {
        ArgsWords(s, ra.pos, args + [t.word], ra.value);
        Swap(multiset(args), FilesOf(rs), t.word, WordsFrom(s, t.next));
        assert multiset(args + [t.word]) + FilesOf(ra.value) + WordsFrom(s, ra.pos) ==
          (multiset(args) + multiset{t.word}) + (FilesOf(ra.value) + WordsFrom(s, ra.pos));
      }
    }
  }

  lemma {:induction false} ExecWords(s: string, i: nat)
    requires i <= |s|
    ensures var r := ParseExec(s, i); r.Ok? ==> WordsFrom(s, i) == WordsOf(r.value) + WordsFrom(s, r.pos)
    decreases |s| - i, 1
  {
    hide ParseArgs, ParseRedirs, ParseBlock, GetToken, SkipSpace, Peek, WordsFrom, Good;
    if Peek(s, i, "(") {
      TokenFromBlanks(s, i, "(");
      SkipWords(s, i);
      BlockWords(s, SkipSpace(s, i));
    } else {
      RedirsWords(s, i, []);
      var ra := ParseRedirs(s, i, []);
      if ra.Ok? {
        var args: seq<Word> := [];
        ArgsWords(s, ra.pos, args, ra.value);
        assert multiset(args) + FilesOf(ra.value) == FilesOf(ra.value);
      }
    }
  }

  lemma {:induction false} BlockWords(s: string, i: nat)
    requires i <= |s| && Peek(s, i, "(")
    ensures var r := ParseBlock(s, i); r.Ok? ==> WordsFrom(s, i) == WordsOf(r.value) + WordsFrom(s, r.pos)
    decreases |s| - i, 0
  {
    hide ParseLine, ParseRedirs, GetToken, SkipSpace, Peek, WordsFrom, Good, Wrap;
    PeekIsSymbol(s, i, "(");
    LineWords(s, GetToken(s, i).next);
    var a := ParseLine(s, GetToken(s, i).next);
    if a.Ok? && Peek(s, a.pos, ")") {
      PeekIsSymbol(s, a.pos, ")");
      var p := GetToken(s, a.pos).next;
      RedirsWords(s, p, []);
      if ParseRedirs(s, p, []).Ok? {
        var r := ParseRedirs(s, p, []);
        WrapWords(a.value, r.value);
        assert WordsOf(a.value) + (FilesOf(r.value) + WordsFrom(s, r.pos)) == (WordsOf(a.value) + FilesOf(r.value)) + WordsFrom(s, r.pos);
      }
    }
  }

  lemma {:induction false} PipeWords(s: string, i: nat)
    requires i <= |s|
    ensures var r := ParsePipe(s, i); r.Ok? ==> WordsFrom(s, i) == WordsOf(r.value) + WordsFrom(s, r.pos)
    decreases |s| - i, 2
  {
    hide ParseExec, GetToken, SkipSpace, Peek, WordsFrom, Good;
    ExecWords(s, i);
    var a := ParseExec(s, i);
    if a.Ok? {
      if Peek(s, a.pos, "|") {
        PeekIsSymbol(s, a.pos, "|");
        PipeWords(s, GetToken(s, a.pos).next);
      } else {
        SkipWords(s, a.pos);
      }
    }
  }

  lemma {:induction false} BacksWords(s: string, i: nat, c: Cmd<Word>)
    requires i <= |s|
    ensures var r := ParseBacks(s, i, c); WordsOf(c) + WordsFrom(s, i) == WordsOf(r.value) + WordsFrom(s, r.pos)
    decreases |s| - i
  {
    hide ParseBacks, GetToken, SkipSpace, Peek, WordsFrom, Good;
    BacksUnfold(s, i, c);
    if Peek(s, i, "&") {
      PeekIsSymbol(s, i, "&");
      BacksWords(s, GetToken(s, i).next, Back(c));
    } else {
      SkipWords(s, i);
    }
  }

  lemma {:induction false} LineWords(s: string, i: nat)
    requires i <= |s|
    ensures var r := ParseLine(s, i); r.Ok? ==> WordsFrom(s, i) == WordsOf(r.value) + WordsFrom(s, r.pos)
    decreases |s| - i, 3
  {
    hide ParsePipe, ParseBacks, GetToken, SkipSpace, Peek, WordsFrom, Good;
    PipeWords(s, i);
    var a := ParsePipe(s, i);
    if a.Ok? {
      BacksWords(s, a.pos, a.value);
      var b := ParseBacks(s, a.pos, a.value);
      if Peek(s, b.pos, ";") {
        PeekIsSymbol(s, b.pos, ";");
        LineWords(s, GetToken(s, b.pos).next);
      } else {
        SkipWords(s, b.pos);
      }
    }
  }

  /** A line that parses has its words, all of them and no others, in the command. */
  lemma {:induction false} NothingDropped(s: string)
    requires ParseCmd(s).Ok?
    ensures WordsOf(ParseCmd(s).value) == WordsFrom(s, 0)
  {
    hide ParseLine, SkipSpace, GetToken, Good, WordsOf;
    LineWords(s, 0);
    SkipWords(s, ParseLine(s, 0).pos);
    NextWords(s, |s|);
    TokenEnds(s, |s|);
  }
}
