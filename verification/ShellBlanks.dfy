/**
  What the shell's parser (sh.c) makes of a line depends on the line's tokens only: where blanks stand
  between them, and which blanks, does not matter.
 */
module ShellBlanks {
  import opened Shell
  import opened ShellParser
  import opened ShellRedirect

  /** A token without its place. */
  datatype Lex = Lex(kind: char, text: string)

  /** The tokens from i on. */
  ghost function Tokens(s: string, i: nat): (r: seq<Lex>)
    requires i <= |s|
    decreases |s| - i
  {
    var t := GetToken(s, i);
    if t.kind == NUL then [] else TokenEnds(s, i); [Lex(t.kind, s[t.word.q..t.word.eq])] + Tokens(s, t.word.eq)
  }

  lemma {:induction false} TokenEnds(s: string, i: nat)
    requires i <= |s|
    ensures var t := GetToken(s, i);
      && t.word.q == SkipSpace(s, i) && t.next == SkipSpace(s, t.word.eq) && i <= t.word.q <= t.word.eq <= |s|
      && (t.kind == NUL <==> t.word.q == |s|) && (t.kind != NUL ==> t.word.q < t.word.eq)
  {
  }

  lemma {:induction false} TokensFromBlanks(s: string, i: nat)
    requires i <= |s|
    ensures Tokens(s, SkipSpace(s, i)) == Tokens(s, i)
  {
    hide GetToken, SkipSpace;
    TokenFromBlanks(s, i, "");
  }

  // ---------- Commands as text ----------

  function Slice(s: string, w: Word): (x: string) {
    if w.q <= w.eq <= |s| then s[w.q..w.eq] else []
  }

  function Texts(s: string, ws: seq<Word>): (r: seq<string>) {
    seq(|ws|, k requires 0 <= k < |ws| => Slice(s, ws[k]))
  }

  function Files(s: string, rs: seq<Redirection<Word>>): (r: seq<Redirection<string>>) {
    seq(|rs|, k requires 0 <= k < |rs| => Redirection(Slice(s, rs[k].file), rs[k].input))
  }

  /** A command with its words as text. */
  function Spell(s: string, c: Cmd<Word>): (r: Cmd<string>) {
    match c
    case Exec(args) => Exec(Texts(s, args))
    case Redir(c1, to) => Redir(Spell(s, c1), Redirection(Slice(s, to.file), to.input))
    case Pipe(l, r) => Pipe(Spell(s, l), Spell(s, r))
    case List(l, r) => List(Spell(s, l), Spell(s, r))
    case Back(c1) => Back(Spell(s, c1))
  }

  lemma {:induction false} SpellWrap(s: string, c: Cmd<Word>, rs: seq<Redirection<Word>>)
    ensures Spell(s, Wrap(c, rs)) == Wrap(Spell(s, c), Files(s, rs))
  {
    if |rs| > 0 {
      SpellWrap(s, c, rs[..|rs| - 1]);
      assert Files(s, rs)[..|rs| - 1] == Files(s, rs[..|rs| - 1]);
    }
  }

  /** A parse without places: what was found and the tokens left, or the panic. */
  datatype Seen<T> = Found(value: T, rest: seq<Lex>) | Failed(message: string)

  ghost function SeeCmd(s: string, r: Result<Cmd<Word>>): (v: Seen<Cmd<string>>)
    requires r.Ok? ==> r.pos <= |s|
  {
    match r case Ok(c, pos) => Found(Spell(s, c), Tokens(s, pos)) case Panic(m) => Failed(m)
  }

  ghost function SeeRedirs(s: string, r: Result<seq<Redirection<Word>>>): (v: Seen<seq<Redirection<string>>>)
    requires r.Ok? ==> r.pos <= |s|
  {
    match r case Ok(rs, pos) => Found(Files(s, rs), Tokens(s, pos)) case Panic(m) => Failed(m)
  }

  // ---------- The same tokens, the same parse ----------

  ghost predicate Same(s: string, i: nat, t: string, j: nat) {
    i <= |s| && j <= |t| && Tokens(s, i) == Tokens(t, j)
  }

  /** gettoken finds the same token in both lines, and the same tokens are left. */
  lemma {:induction false} NextSame(s: string, i: nat, t: string, j: nat)
    requires Same(s, i, t, j)
    ensures var a, b := GetToken(s, i), GetToken(t, j);
      && a.kind == b.kind && (a.kind != NUL ==> Slice(s, a.word) == Slice(t, b.word) != []) && Same(s, a.next, t, b.next)
      && (a.kind == NUL <==> Tokens(s, i) == [])
  {
    hide GetToken, SkipSpace;
    TokenEnds(s, i);
    TokenEnds(t, j);
    var a, b := GetToken(s, i), GetToken(t, j);
    TokensFromBlanks(s, a.word.eq);
    TokensFromBlanks(t, b.word.eq);
    if a.kind != NUL {
      assert Tokens(s, i)[0] == Tokens(t, j)[0] && Tokens(s, i)[1..] == Tokens(t, j)[1..];
    } else {
      NoMore(s, a.word.eq);
      NoMore(t, b.word.eq);
    }
  }

  lemma {:induction false} NoMore(s: string, i: nat)
    requires i <= |s| && GetToken(s, i).kind == NUL
    ensures Tokens(s, GetToken(s, i).next) == []
  {
  }

  ghost predicate Symbols(toks: string) {
    forall c :: c in toks ==> Symbol(c)
  }

  lemma {:induction false} PeekIs(s: string, i: nat, toks: string)
    requires i <= |s| && Symbols(toks)
    ensures Peek(s, i, toks) <==> Tokens(s, i) != [] && Tokens(s, i)[0].text != [] && Tokens(s, i)[0].text[0] in toks
  {
    hide SkipSpace, IsWord;
    TokenEnds(s, i);
  }

  /** peek answers the same in both lines, and leaves the same tokens. */
  lemma {:induction false} PeekSame(s: string, i: nat, t: string, j: nat, toks: string)
    requires Same(s, i, t, j) && Symbols(toks)
    ensures Peek(s, i, toks) == Peek(t, j, toks)
    ensures Same(s, SkipSpace(s, i), t, SkipSpace(t, j))
    ensures Peek(s, i, toks) ==> GetToken(s, i).kind != NUL
  {
    hide SkipSpace, GetToken, Peek, Symbols;
    PeekIs(s, i, toks);
    PeekIs(t, j, toks);
    TokensFromBlanks(s, i);
    TokensFromBlanks(t, j);
    NextSame(s, i, t, j);
  }

  lemma {:induction false} MoreFiles(s: string, rs: seq<Redirection<Word>>, r: Redirection<Word>)
    ensures Files(s, rs + [r]) == Files(s, rs) + [Redirection(Slice(s, r.file), r.input)]
  {
  }

  lemma {:induction false} MoreTexts(s: string, ws: seq<Word>, w: Word)
    ensures Texts(s, ws + [w]) == Texts(s, ws) + [Slice(s, w)]
  {
  }

  lemma {:induction false} RedirsSame(s: string, i: nat, t: string, j: nat, a: seq<Redirection<Word>>,
      b: seq<Redirection<Word>>)
    requires Same(s, i, t, j) && Files(s, a) == Files(t, b)
    ensures SeeRedirs(s, ParseRedirs(s, i, a)) == SeeRedirs(t, ParseRedirs(t, j, b))
    decreases |s| - i
  {
    hide ParseRedirs, GetToken, SkipSpace, Peek, Tokens, Files;
    RedirsUnfold(s, i, a);
    RedirsUnfold(t, j, b);
    PeekSame(s, i, t, j, "<>");
    if Peek(s, i, "<>") {
      NextSame(s, i, t, j);
      var op, oq := GetToken(s, i), GetToken(t, j);
      NextSame(s, op.next, t, oq.next);
      var f, g := GetToken(s, op.next), GetToken(t, oq.next);
      if f.kind == 'a' {
        var x, y := Redirection(f.word, op.kind == '<'), Redirection(g.word, oq.kind == '<');
        MoreFiles(s, a, x);
        MoreFiles(t, b, y);
        RedirsSame(s, f.next, t, g.next, a + [x], b + [y]);
      }
    }
  }

  lemma {:induction false} ArgsSame(s: string, i: nat, t: string, j: nat, args: seq<Word>, brgs: seq<Word>,
      a: seq<Redirection<Word>>, b: seq<Redirection<Word>>)
    requires Same(s, i, t, j) && Texts(s, args) == Texts(t, brgs) && Files(s, a) == Files(t, b) && |args| == |brgs|
    ensures SeeCmd(s, ParseArgs(s, i, args, a)) == SeeCmd(t, ParseArgs(t, j, brgs, b))
    decreases |s| - i
  {
    hide ParseArgs, ParseRedirs, GetToken, SkipSpace, Peek, Tokens, Files, Texts, Wrap, Good;
    ArgsUnfold(s, i, args, a);
    ArgsUnfold(t, j, brgs, b);
    PeekSame(s, i, t, j, "|)&;");
    NextSame(s, i, t, j);
    var f, g := GetToken(s, i), GetToken(t, j);
    if Peek(s, i, "|)&;") || f.kind == NUL {
      SpellWrap(s, Exec(args), a);
      SpellWrap(t, Exec(brgs), b);
    } else if f.kind == 'a' && |args| + 1 < MAXARGS {
      RedirsSame(s, f.next, t, g.next, a, b);
      var ra, rb := ParseRedirs(s, f.next, a), ParseRedirs(t, g.next, b);
      if ra.Ok? {
        MoreTexts(s, args, f.word);
        MoreTexts(t, brgs, g.word);
        ArgsSame(s, ra.pos, t, rb.pos, args + [f.word], brgs + [g.word], ra.value, rb.value);
      }
    }
  }

  lemma {:induction false} ExecSame(s: string, i: nat, t: string, j: nat)
    requires Same(s, i, t, j)
    ensures SeeCmd(s, ParseExec(s, i)) == SeeCmd(t, ParseExec(t, j))
    decreases |s| - i, 1
  {
    hide ParseArgs, ParseRedirs, ParseBlock, GetToken, SkipSpace, Peek, Tokens, Files, Texts, Good, Spell;
    PeekSame(s, i, t, j, "(");
    TokenFromBlanks(s, i, "(");
    TokenFromBlanks(t, j, "(");
    if Peek(s, i, "(") {
      BlockSame(s, SkipSpace(s, i), t, SkipSpace(t, j));
    } else {
      NoFiles(s, t);
      RedirsSame(s, i, t, j, [], []);
      var ra, rb := ParseRedirs(s, i, []), ParseRedirs(t, j, []);
      if ra.Ok? {
        ArgsSame(s, ra.pos, t, rb.pos, [], [], ra.value, rb.value);
      }
    }
  }

  lemma {:induction false} NoFiles(s: string, t: string)
    ensures Files(s, []) == Files(t, []) && Texts(s, []) == Texts(t, [])
  {
  }

  lemma {:induction false} BlockSame(s: string, i: nat, t: string, j: nat)
    requires Same(s, i, t, j) && Peek(s, i, "(") && Peek(t, j, "(")
    ensures SeeCmd(s, ParseBlock(s, i)) == SeeCmd(t, ParseBlock(t, j))
    decreases |s| - i, 0
  {
    hide ParseLine, ParseRedirs, GetToken, SkipSpace, Peek, Tokens, Files, Good, Spell, Wrap;
    PeekSame(s, i, t, j, "(");
    NextSame(s, i, t, j);
    LineSame(s, GetToken(s, i).next, t, GetToken(t, j).next);
    var a, b := ParseLine(s, GetToken(s, i).next), ParseLine(t, GetToken(t, j).next);
    if a.Ok? {
      PeekSame(s, a.pos, t, b.pos, ")");
      if Peek(s, a.pos, ")") {
        NextSame(s, a.pos, t, b.pos);
        NoFiles(s, t);
        var p, q := GetToken(s, a.pos).next, GetToken(t, b.pos).next;
        RedirsSame(s, p, t, q, [], []);
        if ParseRedirs(s, p, []).Ok? {
          SpellWrap(s, a.value, ParseRedirs(s, p, []).value);
          SpellWrap(t, b.value, ParseRedirs(t, q, []).value);
        }
      }
    }
  }

  lemma {:induction false} PipeSame(s: string, i: nat, t: string, j: nat)
    requires Same(s, i, t, j)
    ensures SeeCmd(s, ParsePipe(s, i)) == SeeCmd(t, ParsePipe(t, j))
    decreases |s| - i, 2
  {
    hide ParseExec, GetToken, SkipSpace, Peek, Tokens, Good;
    ExecSame(s, i, t, j);
    var a, b := ParseExec(s, i), ParseExec(t, j);
    if a.Ok? {
      PeekSame(s, a.pos, t, b.pos, "|");
      if Peek(s, a.pos, "|") {
        NextSame(s, a.pos, t, b.pos);
        PipeSame(s, GetToken(s, a.pos).next, t, GetToken(t, b.pos).next);
      }
    }
  }

  lemma {:induction false} BacksSame(s: string, i: nat, t: string, j: nat, c: Cmd<Word>, d: Cmd<Word>)
    requires Same(s, i, t, j) && Spell(s, c) == Spell(t, d)
    ensures SeeCmd(s, ParseBacks(s, i, c)) == SeeCmd(t, ParseBacks(t, j, d))
    decreases |s| - i
  {
    hide ParseBacks, GetToken, SkipSpace, Peek, Tokens, Good;
    BacksUnfold(s, i, c);
    BacksUnfold(t, j, d);
    PeekSame(s, i, t, j, "&");
    if Peek(s, i, "&") {
      NextSame(s, i, t, j);
      BacksSame(s, GetToken(s, i).next, t, GetToken(t, j).next, Back(c), Back(d));
    }
  }

  lemma {:induction false} LineSame(s: string, i: nat, t: string, j: nat)
    requires Same(s, i, t, j)
    ensures SeeCmd(s, ParseLine(s, i)) == SeeCmd(t, ParseLine(t, j))
    decreases |s| - i, 3
  {
    hide ParsePipe, ParseBacks, GetToken, SkipSpace, Peek, Tokens, Good;
    PipeSame(s, i, t, j);
    var a, b := ParsePipe(s, i), ParsePipe(t, j);
    if a.Ok? {
      BacksSame(s, a.pos, t, b.pos, a.value, b.value);
      var x, y := ParseBacks(s, a.pos, a.value), ParseBacks(t, b.pos, b.value);
      PeekSame(s, x.pos, t, y.pos, ";");
      if Peek(s, x.pos, ";") {
        NextSame(s, x.pos, t, y.pos);
        LineSame(s, GetToken(s, x.pos).next, t, GetToken(t, y.pos).next);
      }
    }
  }

  /** Two lines with the same tokens are the same command, or the same panic. */
  lemma {:induction false} TokensDecide(s: string, t: string)
    requires Tokens(s, 0) == Tokens(t, 0)
    ensures SeeCmd(s, ParseCmd(s)) == SeeCmd(t, ParseCmd(t))
  {
    hide ParseLine, SkipSpace, Tokens, GetToken, Good, Spell;
    LineSame(s, 0, t, 0);
    var a, b := ParseLine(s, 0), ParseLine(t, 0);
    if a.Ok? {
      NextSame(s, a.pos, t, b.pos);
      TokenEnds(s, a.pos);
      TokenEnds(t, b.pos);
      NothingLeft(s);
      NothingLeft(t);
    }
  }

  lemma {:induction false} NothingLeft(s: string)
    ensures Tokens(s, |s|) == []
  {
  }

  // ---------- Where blanks may stand ----------

  /** Place p of the line is strictly inside a token found from i on. */
  ghost predicate Inside(s: string, i: nat, p: nat)
    requires i <= |s|
    decreases |s| - i
  {
    var t := GetToken(s, i);
    t.kind != NUL && (TokenEnds(s, i); t.word.q < p < t.word.eq || Inside(s, t.word.eq, p))
  }

  /** The five characters of sh.c's whitespace. */
  predicate Blank(c: char) {
    c in [' ', '\t', '\r', '\n', '\U{0B}']
  }

  function Insert(s: string, p: nat, c: char): (t: string)
    requires p <= |s|
    ensures |t| == |s| + 1 && t[p] == c && t[..p] == s[..p] && t[p + 1..] == s[p..]
  {
    s[..p] + [c] + s[p..]
  }

  lemma {:induction false} TokensAligned(s: string, i: nat, t: string, j: nat)
    requires Aligned(s, i, t, j)
    ensures Tokens(s, i) == Tokens(t, j)
    decreases |s| - i
  {
    hide GetToken, SkipSpace, Aligned;
    AlignedBound(s, i, t, j);
    TokenAligned(s, i, t, j);
    TokenEnds(s, i);
    TokenEnds(t, j);
    var a, b := GetToken(s, i), GetToken(t, j);
    if a.kind != NUL {
      SameWord(s, i, t, j, a.word, b.word);
      AlignedOn(s, i, t, j, a.word.eq - i);
      TokensAligned(s, a.word.eq, t, b.word.eq);
    }
  }

  /** Two lines that agree before p have the same blanks before p. */
  lemma {:induction false} SkipBefore(s: string, t: string, i: nat, p: nat)
    requires i <= p <= |s| && p <= |t| && s[..p] == t[..p]
    ensures SkipSpace(s, i) < p ==> SkipSpace(t, i) == SkipSpace(s, i)
    ensures SkipSpace(s, i) >= p ==> SkipSpace(t, i) == SkipSpace(t, p)
    decreases p - i
  {
    if i < p {
      assert s[i] == s[..p][i] && t[i] == t[..p][i];
      if Space(s[i]) {
        SkipBefore(s, t, i + 1, p);
      }
    }
  }

  lemma {:induction false} WordBefore(s: string, t: string, i: nat, p: nat)
    requires i <= p <= |s| && p < |t| && s[..p] == t[..p] && !WordChar(t[p])
    ensures WordEnd(t, i) == if WordEnd(s, i) < p then WordEnd(s, i) else p
    decreases p - i
  {
    if i < p {
      assert s[i] == s[..p][i] && t[i] == t[..p][i];
      if WordChar(s[i]) {
        WordBefore(s, t, i + 1, p);
      }
    }
  }

  /** A token that starts before an inserted blank ends where it did, or at the blank. */
  lemma {:induction false} TokenCut(s: string, i: nat, p: nat, c: char)
    requires i <= p <= |s| && Blank(c) && GetToken(s, i).word.q < p
    ensures var a, b := GetToken(s, i), GetToken(Insert(s, p, c), i);
      && b.word.q == a.word.q && b.kind != NUL && a.kind != NUL
      && (a.word.eq <= p ==> b.kind == a.kind && b.word == a.word)
      && (a.word.eq > p ==> b.word.eq == p)
  {
    hide SkipSpace, WordEnd, IsWord;
    var t, q := Insert(s, p, c), GetToken(s, i).word.q;
    SkipBefore(s, t, i, p);
    assert s[q] == s[..p][q] && t[q] == t[..p][q];
    assert q + 1 < p ==> s[q + 1] == s[..p][q + 1] && t[q + 1] == t[..p][q + 1];
    WordBefore(s, t, q, p);
  }

  /** A blank put into a line leaves its tokens as they are if and only if it does not cut one in two. */
  lemma {:induction false} BlankKeepsTokens(s: string, i: nat, p: nat, c: char)
    requires i <= p <= |s| && Blank(c)
    ensures Tokens(Insert(s, p, c), i) == Tokens(s, i) <==> !Inside(s, i, p)
    decreases |s| - i
  {
    hide GetToken, SkipSpace;
    var t, a, b := Insert(s, p, c), GetToken(s, i), GetToken(Insert(s, p, c), i);
    TokenEnds(s, i);
    TokenEnds(t, i);
    if p <= a.word.q {
      BeforeToken(s, i, p, c);
      NotYetInside(s, i, p);
    } else {
      TokenCut(s, i, p, c);
      assert s[a.word.q..p] == t[a.word.q..p] by {
        assert s[..p][a.word.q..p] == s[a.word.q..p] && t[..p][a.word.q..p] == t[a.word.q..p];
      }
      if a.word.eq <= p {
        assert s[a.word.q..a.word.eq] == s[a.word.q..p][..a.word.eq - a.word.q];
        assert t[a.word.q..a.word.eq] == t[a.word.q..p][..a.word.eq - a.word.q];
        BlankKeepsTokens(s, a.word.eq, p, c);
        SameHead(Lex(a.kind, s[a.word.q..a.word.eq]), Tokens(s, a.word.eq), Tokens(t, a.word.eq));
      } else {
        assert Tokens(t, i)[0].text == t[a.word.q..p] && Tokens(s, i)[0].text == s[a.word.q..a.word.eq];
      }
    }
  }

  lemma {:induction false} SameHead(x: Lex, a: seq<Lex>, b: seq<Lex>)
    ensures [x] + a == [x] + b <==> a == b
  {
    assert ([x] + a)[1..] == a && ([x] + b)[1..] == b;
  }

  lemma {:induction false} BeforeToken(s: string, i: nat, p: nat, c: char)
    requires i <= |s| && i <= p <= SkipSpace(s, i) && Blank(c)
    ensures Tokens(Insert(s, p, c), i) == Tokens(s, i)
  {
    hide GetToken, Tokens;
    var t := Insert(s, p, c);
    SkipBefore(s, t, i, p);
    SkipBefore(s, s, i, p);
    assert Space(c) && SkipSpace(t, p) == SkipSpace(t, p + 1);
    TokensFromBlanks(s, i);
    TokensFromBlanks(s, p);
    TokensFromBlanks(t, i);
    TokensFromBlanks(t, p + 1);
    assert Aligned(s, p, t, p + 1);
    TokensAligned(s, p, t, p + 1);
  }

  lemma {:induction false} NotYetInside(s: string, i: nat, p: nat)
    requires i <= |s| && i <= p <= SkipSpace(s, i)
    ensures !Inside(s, i, p)
    decreases |s| - i
  {
    hide GetToken, SkipSpace;
    TokenEnds(s, i);
    var t := GetToken(s, i);
    if t.kind != NUL {
      BehindInside(s, t.word.eq, p);
    }
  }

  lemma {:induction false} BehindInside(s: string, i: nat, p: nat)
    requires p <= i <= |s|
    ensures !Inside(s, i, p)
    decreases |s| - i
  {
    hide GetToken, SkipSpace;
    TokenEnds(s, i);
    var t := GetToken(s, i);
    if t.kind != NUL {
      BehindInside(s, t.word.eq, p);
    }
  }

  /** A blank may stand anywhere but inside a token: the command is the same, or the panic. */
  lemma {:induction false} BlankBetweenTokens(s: string, p: nat, c: char)
    requires p <= |s| && Blank(c) && !Inside(s, 0, p)
    ensures SeeCmd(Insert(s, p, c), ParseCmd(Insert(s, p, c))) == SeeCmd(s, ParseCmd(s))
  {
    hide Tokens, Inside, ParseCmd, SeeCmd;
    BlankKeepsTokens(s, 0, p, c);
    TokensDecide(Insert(s, p, c), s);
  }

  /** So a line that ends in a newline, or in any of the five, is the line without it. */
  lemma {:induction false} BlankAtEnd(s: string, c: char)
    requires Blank(c)
    ensures SeeCmd(s + [c], ParseCmd(s + [c])) == SeeCmd(s, ParseCmd(s))
  {
    hide Tokens, Inside, ParseCmd, SeeCmd;
    assert Insert(s, |s|, c) == s + [c];
    NotAtEnd(s, 0);
    BlankBetweenTokens(s, |s|, c);
  }

  lemma {:induction false} NotAtEnd(s: string, i: nat)
    requires i <= |s|
    ensures !Inside(s, i, |s|)
    decreases |s| - i
  {
    hide GetToken, SkipSpace;
    TokenEnds(s, i);
    var t := GetToken(s, i);
    if t.kind != NUL {
      NotAtEnd(s, t.word.eq);
    }
  }

  // ---------- Which characters are words ----------

  /** The seven characters of sh.c's symbols. */
  predicate Mark(c: char) {
    c in ['<', '|', '>', '&', ';', '(', ')']
  }

  lemma {:induction false} WordToEnd(s: string, i: nat)
    requires i <= |s| && forall k :: i <= k < |s| ==> !Blank(s[k]) && !Mark(s[k])
    ensures WordEnd(s, i) == |s|
    decreases |s| - i
  {
    if i < |s| {
      WordToEnd(s, i + 1);
    }
  }

  /** A line without blanks and symbols is one word. */
  lemma {:induction false} OneWord(s: string)
    requires s != [] && forall k :: 0 <= k < |s| ==> !Blank(s[k]) && !Mark(s[k])
    ensures Tokens(s, 0) == [Lex('a', s)]
  {
    hide WordEnd, IsWord;
    NothingLeft(s);
    WordToEnd(s, 0);
    assert !Blank(s[0]) && !Mark(s[0]) && SkipSpace(s, 0) == 0;
    assert s[0..|s|] == s;
  }

  /** A symbol is a token of its own, and so is ">>". */
  lemma {:induction false} OneMark(c: char)
    requires Mark(c)
    ensures Tokens([c], 0) == [Lex(c, [c])]
    ensures Tokens(">>", 0) == [Lex('+', ">>")]
  {
    hide WordEnd, IsWord;
    NothingLeft([c]);
    NothingLeft(">>");
    assert [c][0..1] == [c] && ">>"[0..2] == ">>";
    assert SkipSpace([c], 0) == 0 && SkipSpace(">>", 0) == 0;
  }
}
