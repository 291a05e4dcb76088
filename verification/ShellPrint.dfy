/**
  Every command tree can be written as a line, and the parser of sh.c reads that line back as the tree.
  A command that the grammar does not take where it stands is written in parentheses.
 */
module ShellPrint {
  import opened Shell
  import opened ShellParser

  type Text = Cmd<string>

  ghost predicate TextWord(w: string) {
    |w| > 0 && forall i :: 0 <= i < |w| ==> WordChar(w[i])
  }

  ghost predicate Printable(t: Text) {
    match t
    case Exec(args) => |args| < MAXARGS && forall i :: 0 <= i < |args| ==> TextWord(args[i])
    case Redir(c, to) => Printable(c) && TextWord(to.file)
    case Pipe(l, r) => Printable(l) && Printable(r)
    case List(l, r) => Printable(l) && Printable(r)
    case Back(c) => Printable(c)
  }

  // ---------- writing a tree ----------

  function PrintArgs(args: seq<string>): (x: string) {
    if |args| == 0 then "" else " " + args[0] + PrintArgs(args[1..])
  }

  function PrintRedirs(rs: seq<Redirection<string>>): (x: string) {
    if |rs| == 0 then ""
    else (if rs[0].input then "<" else ">") + rs[0].file + PrintRedirs(rs[1..])
  }

  /** The command under the redirections, and the redirections, innermost first. */
  function Base(t: Text): (b: Text)
    ensures !b.Redir? && (b == t || b < t)
  {
    if t.Redir? then Base(t.cmd) else t
  }

  function Redirections(t: Text): seq<Redirection<string>> {
    if t.Redir? then Redirections(t.cmd) + [t.to] else []
  }

  function PrintBase(t: Text): (x: string)
    requires !t.Redir?
    decreases t, 0
  {
    match t
    case Exec(args) => PrintArgs(args)
    case Pipe(l, r) => "(" + (PrintExec(l) + ("|" + PrintPipe(r))) + ")"
    case List(l, r) => "(" + (PrintBack(l) + (";" + PrintLine(r))) + ")"
    case Back(c) => "(" + (PrintBack(c) + "&") + ")"
  }

  function PrintExec(t: Text): (x: string)
    decreases t, 1
  {
    PrintBase(Base(t)) + PrintRedirs(Redirections(t))
  }

  function PrintPipe(t: Text): (x: string)
    decreases t, 2
  {
    match t
    case Pipe(l, r) => PrintExec(l) + ("|" + PrintPipe(r))
    case _ => PrintExec(t)
  }

  function PrintBack(t: Text): (x: string)
    decreases t, 3
  {
    match t
    case Back(c) => PrintBack(c) + "&"
    case _ => PrintPipe(t)
  }

  function PrintLine(t: Text): (x: string)
    decreases t, 4
  {
    match t
    case List(l, r) => PrintBack(l) + (";" + PrintLine(r))
    case _ => PrintBack(t)
  }

  lemma {:induction false} BlockIsLine(t: Text)
    requires !t.Redir? && !t.Exec?
    ensures PrintBase(t) == "(" + PrintLine(t) + ")"
  {
    if !t.List? {
      assert PrintLine(t) == PrintBack(t);
    }
    if t.Pipe? {
      assert PrintBack(t) == PrintPipe(t);
    }
  }

  // ---------- reading it back ----------

  ghost predicate IsText(s: string, w: Word, x: string) {
    w.q <= w.eq <= |s| && s[w.q..w.eq] == x
  }

  /** The tree c of pointers into s is the tree t of strings. */
  ghost predicate Shows(s: string, c: Cmd<Word>, t: Text) {
    match (c, t)
    case (Exec(ws), Exec(xs)) => |ws| == |xs| && forall i :: 0 <= i < |ws| ==> IsText(s, ws[i], xs[i])
    case (Redir(c1, w), Redir(t1, x)) => Shows(s, c1, t1) && IsText(s, w.file, x.file) && w.input == x.input
    case (Pipe(l, r), Pipe(l1, r1)) => Shows(s, l, l1) && Shows(s, r, r1)
    case (List(l, r), List(l1, r1)) => Shows(s, l, l1) && Shows(s, r, r1)
    case (Back(c1), Back(t1)) => Shows(s, c1, t1)
    case (_, _) => false
  }

  ghost predicate ShowsRedirs(s: string, ws: seq<Redirection<Word>>, rs: seq<Redirection<string>>) {
    |ws| == |rs| && forall i :: 0 <= i < |ws| ==> IsText(s, ws[i].file, rs[i].file) && ws[i].input == rs[i].input
  }

  /** x stands at pos in s. */
  ghost predicate At(s: string, pos: nat, x: string) {
    pos + |x| <= |s| && s[pos..pos + |x|] == x
  }

  /** At e the line ends or has one of the characters in toks. */
  ghost predicate Follows(s: string, e: nat, toks: string) {
    e == |s| || (e < |s| && s[e] in toks)
  }

  lemma {:induction false} AtSplit(s: string, pos: nat, x: string, y: string)
    requires At(s, pos, x + y)
    ensures At(s, pos, x) && At(s, pos + |x|, y)
  {
    var z := s[pos..pos + |x + y|];
    assert z[..|x|] == x && z[|x|..] == y;
    assert s[pos..pos + |x|] == z[..|x|];
    assert s[pos + |x|..pos + |x| + |y|] == z[|x|..];
  }

  lemma {:induction false} AtChar(s: string, pos: nat, c: char, x: string)
    requires At(s, pos, [c] + x)
    ensures pos < |s| && s[pos] == c && At(s, pos + 1, x)
  {
    AtSplit(s, pos, [c], x);
    assert s[pos] == s[pos..pos + 1][0];
  }

  lemma {:induction false} WrapBase(t: Text)
    ensures t == Wrap(Base(t), Redirections(t))
  {
    if t.Redir? {
      WrapBase(t.cmd);
      var rs := Redirections(t);
      assert rs[..|rs| - 1] == Redirections(t.cmd);
    }
  }

  lemma {:induction false} ShowsWrap(s: string, c: Cmd<Word>, t: Text, ws: seq<Redirection<Word>>,
      rs: seq<Redirection<string>>)
    requires Shows(s, c, t) && ShowsRedirs(s, ws, rs)
    ensures Shows(s, Wrap(c, ws), Wrap(t, rs))
    decreases |ws|
  {
    if |ws| > 0 {
      ShowsWrap(s, c, t, ws[..|ws| - 1], rs[..|rs| - 1]);
    }
  }

  // ---------- tokens ----------

  lemma {:induction false} NoSkip(s: string, pos: nat)
    requires pos <= |s| && (pos == |s| || !Space(s[pos]))
    ensures SkipSpace(s, pos) == pos
  {
  }

  lemma {:induction false} OneSpace(s: string, pos: nat)
    requires pos + 1 < |s| && s[pos] == ' ' && !Space(s[pos + 1])
    ensures SkipSpace(s, pos) == pos + 1
  {
    NoSkip(s, pos + 1);
  }

  lemma {:induction false} WordEndIs(s: string, i: nat, e: nat)
    requires i <= e <= |s| && (forall k :: i <= k < e ==> WordChar(s[k])) && (e < |s| ==> !WordChar(s[e]))
    ensures WordEnd(s, i) == e
    decreases e - i
  {
    if i < e {
      WordEndIs(s, i + 1, e);
    }
  }

  /** A word followed by another character is one token. */
  lemma {:induction false} WordToken(s: string, pos: nat, x: string)
    requires TextWord(x) && At(s, pos, x)
    requires pos + |x| < |s| ==> !WordChar(s[pos + |x|])
    ensures SkipSpace(s, pos) == pos && pos < |s| && WordChar(s[pos])
    ensures GetToken(s, pos) == Token('a', Word(pos, pos + |x|), SkipSpace(s, pos + |x|))
    ensures IsText(s, Word(pos, pos + |x|), x)
  {
    forall k | pos <= k < pos + |x|
      ensures WordChar(s[k])
    {
      assert s[k] == s[pos..pos + |x|][k - pos];
    }
    assert WordChar(s[pos]);
    NoSkip(s, pos);
    WordEndIs(s, pos, pos + |x|);
  }

  /** One symbol that is not the start of ">>" is one token. */
  lemma {:induction false} SymbolToken(s: string, pos: nat)
    requires pos < |s| && Symbol(s[pos]) && !(s[pos] == '>' && pos + 1 < |s| && s[pos + 1] == '>')
    ensures SkipSpace(s, pos) == pos
    ensures GetToken(s, pos).kind == s[pos] && GetToken(s, pos).next == SkipSpace(s, pos + 1)
  {
    NoSkip(s, pos);
  }

  lemma {:induction false} AtEnd(s: string, e: nat, toks: string, more: string)
    requires Follows(s, e, toks) && forall c :: c in toks ==> Symbol(c)
    ensures e <= |s| && SkipSpace(s, e) == e
    ensures Peek(s, e, more) <==> e < |s| && s[e] in more
  {
    NoSkip(s, e);
  }

  // ---------- redirections and arguments ----------

  lemma {:induction false} RedirStep(s: string, pos: nat, input: bool, file: string, acc: seq<Redirection<Word>>)
    requires pos < |s| && s[pos] == (if input then '<' else '>')
    requires TextWord(file) && At(s, pos + 1, file)
    requires pos + 1 + |file| < |s| ==> !WordChar(s[pos + 1 + |file|])
    ensures var e := pos + 1 + |file|;
      var w := Word(pos + 1, e);
      ParseRedirs(s, pos, acc) == ParseRedirs(s, e, acc + [Redirection(w, input)]) && IsText(s, w, file)
  {
    hide GetToken, Peek, SkipSpace, ParseRedirs, At, TextWord, IsText;
    RedirsUnfold(s, pos, acc);
    WordToken(s, pos + 1, file);
    SymbolToken(s, pos);
    PeekAt(s, pos, "<>");
    var e := pos + 1 + |file|;
    RedirsFromBlanks(s, e, acc + [Redirection(Word(pos + 1, e), input)]);
  }

  /** parseredirs reads back what PrintRedirs wrote. */
  lemma {:induction false} RedirsReadBack(s: string, pos: nat, rs: seq<Redirection<string>>, acc: seq<Redirection<Word>>)
    returns (ws: seq<Redirection<Word>>)
    requires At(s, pos, PrintRedirs(rs)) && Follows(s, pos + |PrintRedirs(rs)|, "|)&;")
    requires forall i :: 0 <= i < |rs| ==> TextWord(rs[i].file)
    ensures ParseRedirs(s, pos, acc) == Ok(acc + ws, pos + |PrintRedirs(rs)|) && ShowsRedirs(s, ws, rs)
    decreases |rs|
  {
    hide GetToken, Peek, SkipSpace, ParseRedirs, At, TextWord, IsText, Follows, PrintRedirs, ShowsRedirs;
    RedirsText(rs);
    if |rs| == 0 {
      AtEnd(s, pos, "|)&;", "<>");
      RedirsUnfold(s, pos, acc);
      StopIsNot(s, pos);
      ws := [];
      assert acc + ws == acc && ShowsRedirs(s, ws, rs) by { ShowsNone(s); }
    } else {
      var rest := PrintRedirs(rs[1..]);
      var op, file := if rs[0].input then '<' else '>', rs[0].file;
      AtChar(s, pos, op, file + rest);
      AtSplit(s, pos + 1, file, rest);
      var e := pos + 1 + |file|;
      AfterRedir(s, e, rs[1..]);
      RedirStep(s, pos, rs[0].input, file, acc);
      var w := Redirection(Word(pos + 1, e), rs[0].input);
      var tail := RedirsReadBack(s, e, rs[1..], acc + [w]);
      ws := [w] + tail;
      Regroup(acc, [w], tail);
      ShowsMore(s, w, tail, rs);
    }
  }

  lemma {:induction false} RedirsText(rs: seq<Redirection<string>>)
    ensures if |rs| == 0 then PrintRedirs(rs) == ""
      else PrintRedirs(rs) == [if rs[0].input then '<' else '>'] + (rs[0].file + PrintRedirs(rs[1..]))
  {
    if |rs| > 0 {
      var op, rest := if rs[0].input then "<" else ">", PrintRedirs(rs[1..]);
      assert op + rs[0].file + rest == op + (rs[0].file + rest);
    }
  }

  lemma {:induction false} ShowsNone(s: string)
    ensures ShowsRedirs(s, [], [])
  {
  }

  lemma {:induction false} ShowsMore(s: string, w: Redirection<Word>, ws: seq<Redirection<Word>>,
      rs: seq<Redirection<string>>)
    requires |rs| > 0 && IsText(s, w.file, rs[0].file) && w.input == rs[0].input && ShowsRedirs(s, ws, rs[1..])
    ensures ShowsRedirs(s, [w] + ws, rs)
  {
  }

  lemma {:induction false} Regroup<T>(a: seq<T>, b: seq<T>, c: seq<T>)
    ensures a + b + c == a + (b + c)
  {
  }

  lemma {:induction false} StopIsNot(s: string, e: nat)
    requires Follows(s, e, "|)&;")
    ensures e < |s| ==> s[e] !in "<>" && s[e] != '('
  {
  }

  /** What stands after a word: the next redirection, or what follows them all. */
  lemma {:induction false} AfterRedir(s: string, e: nat, rs: seq<Redirection<string>>)
    requires At(s, e, PrintRedirs(rs)) && Follows(s, e + |PrintRedirs(rs)|, "|)&;")
    ensures e < |s| ==> Symbol(s[e]) && s[e] != '('
    ensures |rs| > 0 ==> e < |s|
  {
    RedirsText(rs);
    if |rs| > 0 {
      AtChar(s, e, if rs[0].input then '<' else '>', rs[0].file + PrintRedirs(rs[1..]));
    }
  }

  lemma {:induction false} PeekAt(s: string, pos: nat, toks: string)
    requires pos < |s| && !Space(s[pos])
    ensures Peek(s, pos, toks) <==> s[pos] in toks
  {
    NoSkip(s, pos);
  }

  /** parseexec from where it first looks for redirections, with the arguments so far. */
  function Tail(s: string, pos: nat, acc: seq<Word>): (r: Result<Cmd<Word>>)
    requires pos <= |s|
  {
    var redirs := ParseRedirs(s, pos, []);
    if redirs.Panic? then Panic(redirs.message) else ParseArgs(s, redirs.pos, acc, redirs.value)
  }

  lemma {:induction false} ArgStep(s: string, pos: nat, x: string, acc: seq<Word>)
    requires pos < |s| && s[pos] == ' ' && TextWord(x) && At(s, pos + 1, x) && |acc| + 1 < MAXARGS
    requires pos + 1 + |x| < |s| ==> !WordChar(s[pos + 1 + |x|])
    ensures var e := pos + 1 + |x|;
      var w := Word(pos + 1, e);
      e <= |s| && Tail(s, pos, acc) == Tail(s, e, acc + [w]) && IsText(s, w, x)
  {
    hide GetToken, Peek, SkipSpace, ParseRedirs, ParseArgs, At, TextWord, IsText;
    var e := pos + 1 + |x|;
    assert e <= |s| by { AtBound(s, pos + 1, x); }
    WordToken(s, pos + 1, x);
    OneSpace(s, pos);
    RedirsFromBlanks(s, pos, []);
    RedirsUnfold(s, pos + 1, []);
    PeekAt(s, pos + 1, "<>");
    PeekAt(s, pos + 1, "|)&;");
    ArgsUnfold(s, pos + 1, acc, []);
    RedirsFromBlanks(s, e, []);
  }

  lemma {:induction false} AtBound(s: string, pos: nat, x: string)
    requires At(s, pos, x)
    ensures pos + |x| <= |s|
  {
  }

  lemma {:induction false} ArgsText(args: seq<string>, rest: string)
    requires |args| > 0
    ensures PrintArgs(args) + rest == [' '] + (args[0] + (PrintArgs(args[1..]) + rest))
  {
    assert " " + args[0] + PrintArgs(args[1..]) + rest == [' '] + (args[0] + (PrintArgs(args[1..]) + rest));
  }

  /** parseexec reads back the arguments and the redirections after them. */
  lemma {:induction false} ArgsReadBack(s: string, pos: nat, args: seq<string>, rs: seq<Redirection<string>>,
      acc: seq<Word>, accText: seq<string>)
    returns (c: Cmd<Word>)
    requires At(s, pos, PrintArgs(args) + PrintRedirs(rs))
    requires Follows(s, pos + |PrintArgs(args) + PrintRedirs(rs)|, "|)&;")
    requires forall i :: 0 <= i < |args| ==> TextWord(args[i])
    requires forall i :: 0 <= i < |rs| ==> TextWord(rs[i].file)
    requires |acc| + |args| < MAXARGS && Shows(s, Exec(acc), Exec(accText))
    ensures pos <= |s| && Tail(s, pos, acc) == Ok(c, pos + |PrintArgs(args) + PrintRedirs(rs)|)
    ensures Shows(s, c, Wrap(Exec(accText + args), rs))
    decreases |args|
  {
    hide GetToken, Peek, SkipSpace, ParseRedirs, ParseArgs, At, TextWord, IsText, Follows, PrintRedirs;
    hide ShowsRedirs, Wrap, PrintArgs;
    hide Shows;
    AtBound(s, pos, PrintArgs(args) + PrintRedirs(rs));
    if |args| == 0 {
      assert PrintArgs(args) + PrintRedirs(rs) == PrintRedirs(rs) &&
        accText + args == accText by { NoArgsText(args, PrintRedirs(rs)); }
      var e := pos + |PrintRedirs(rs)|;
      var ws := RedirsReadBack(s, pos, rs, []);
      assert [] + ws == ws;
      AtEnd(s, e, "|)&;", "|)&;");
      EndToken(s, e);
      ArgsUnfold(s, e, acc, ws);
      c := Wrap(Exec(acc), ws);
      ShowsWrap(s, Exec(acc), Exec(accText), ws, rs);
    } else {
      var rest := PrintArgs(args[1..]) + PrintRedirs(rs);
      ArgsText(args, PrintRedirs(rs));
      AtChar(s, pos, ' ', args[0] + rest);
      AtSplit(s, pos + 1, args[0], rest);
      var e := pos + 1 + |args[0]|;
      AfterArg(s, e, args[1..], rs);
      ArgStep(s, pos, args[0], acc);
      var w := Word(pos + 1, e);
      ShowsArg(s, acc, accText, w, args[0]);
      c := ArgsReadBack(s, e, args[1..], rs, acc + [w], accText + [args[0]]);
      assert accText + [args[0]] + args[1..] == accText + args;
    }
  }

  lemma {:induction false} NoArgsText(args: seq<string>, rest: string)
    requires |args| == 0
    ensures PrintArgs(args) + rest == rest
  {
  }

  lemma {:induction false} EndToken(s: string, e: nat)
    requires Follows(s, e, "|)&;")
    ensures e == |s| || (e < |s| && s[e] in "|)&;")
    ensures e == |s| ==> GetToken(s, e).kind == NUL
  {
    if e == |s| {
      NoSkip(s, e);
    }
  }

  lemma {:induction false} ShowsArg(s: string, ws: seq<Word>, xs: seq<string>, w: Word, x: string)
    requires Shows(s, Exec(ws), Exec(xs)) && IsText(s, w, x)
    ensures Shows(s, Exec(ws + [w]), Exec(xs + [x]))
  {
  }

  /** What stands after an argument: a space, a redirection, or what follows the command. */
  lemma {:induction false} AfterArg(s: string, e: nat, args: seq<string>, rs: seq<Redirection<string>>)
    requires At(s, e, PrintArgs(args) + PrintRedirs(rs)) && Follows(s, e + |PrintArgs(args) + PrintRedirs(rs)|, "|)&;")
    ensures e < |s| ==> !WordChar(s[e])
  {
    hide At, PrintArgs, PrintRedirs, Follows;
    if |args| == 0 {
      NoArgsText(args, PrintRedirs(rs));
      AfterRedir(s, e, rs);
    } else {
      ArgsText(args, PrintRedirs(rs));
      AtChar(s, e, ' ', args[0] + (PrintArgs(args[1..]) + PrintRedirs(rs)));
    }
  }

  // ---------- the grammar ----------

  lemma {:induction false} ExecFromBlanks(s: string, pos: nat)
    requires pos <= |s|
    ensures ParseExec(s, SkipSpace(s, pos)) == ParseExec(s, pos)
  {
    hide GetToken, Peek, SkipSpace, ParseRedirs, ParseArgs, ParseBlock;
    TokenFromBlanks(s, pos, "(");
    RedirsFromBlanks(s, pos, []);
  }

  lemma {:induction false} PipeFromBlanks(s: string, pos: nat)
    requires pos <= |s|
    ensures ParsePipe(s, SkipSpace(s, pos)) == ParsePipe(s, pos)
  {
    hide GetToken, Peek, SkipSpace, ParseExec;
    ExecFromBlanks(s, pos);
  }

  lemma {:induction false} LineFromBlanks(s: string, pos: nat)
    requires pos <= |s|
    ensures ParseLine(s, SkipSpace(s, pos)) == ParseLine(s, pos)
  {
    hide GetToken, Peek, SkipSpace, ParsePipe, ParseBacks;
    PipeFromBlanks(s, pos);
  }

  lemma {:induction false} PrintableParts(t: Text)
    requires Printable(t)
    ensures Printable(Base(t))
    ensures forall i :: 0 <= i < |Redirections(t)| ==> TextWord(Redirections(t)[i].file)
  {
    hide TextWord;
    if t.Redir? {
      PrintableParts(t.cmd);
    }
  }

  /** parseexec reads back a simple command or a block, with its redirections. */
  lemma {:induction false} ExecReadsBack(s: string, pos: nat, t: Text) returns (c: Cmd<Word>)
    requires Printable(t) && At(s, pos, PrintExec(t)) && Follows(s, pos + |PrintExec(t)|, "|)&;")
    ensures pos <= |s| && ParseExec(s, pos) == Ok(c, pos + |PrintExec(t)|) && Shows(s, c, t)
    decreases |PrintExec(t)|, 0
  {
    hide *;
    AtBound(s, pos, PrintExec(t));
    PrintableParts(t);
    WrapBase(t);
    ExecText(t);
    var b, rs := Base(t), Redirections(t);
    if b.Exec? {
      var none: seq<Word>, noText: seq<string> := [], [];
      ShowsNoArgs(s);
      PrintableArgs(b);
      c := ArgsReadBack(s, pos, b.args, rs, none, noText);
      assert noText + b.args == b.args;
      NotBlock(s, pos, b.args, rs);
      ExecIsTail(s, pos);
    } else {
      var line := PrintLine(b);
      var redirs := PrintRedirs(rs);
      BlockIsLine(b);
      BlockText(line, redirs);
      AtChar(s, pos, '(', line + ([')'] + redirs));
      AtSplit(s, pos + 1, line, [')'] + redirs);
      var e := pos + 1 + |line|;
      AtChar(s, e, ')', redirs);
      FollowsAt(s, e, ")");
      var c1 := LineReadsBack(s, pos + 1, b);
      var ws := RedirsReadBack(s, e + 1, rs, []);
      assert [] + ws == ws;
      BlockStep(s, pos, e, c1, ws, e + 1 + |redirs|);
      c := Wrap(c1, ws);
      ShowsWrap(s, c1, b, ws, rs);
    }
  }

  /** parsepipe reads back a pipeline. */
  lemma {:induction false} PipeReadsBack(s: string, pos: nat, t: Text) returns (c: Cmd<Word>)
    requires Printable(t) && At(s, pos, PrintPipe(t)) && Follows(s, pos + |PrintPipe(t)|, ")&;")
    ensures pos <= |s| && ParsePipe(s, pos) == Ok(c, pos + |PrintPipe(t)|) && Shows(s, c, t)
    decreases |PrintPipe(t)|, 1
  {
    hide *;
    PipeText(t);
    AtBound(s, pos, PrintPipe(t));
    if t.Pipe? {
      PrintableTwo(t);
      AtSplit(s, pos, PrintExec(t.left), ['|'] + PrintPipe(t.right));
      var e := pos + |PrintExec(t.left)|;
      AtChar(s, e, '|', PrintPipe(t.right));
      FollowsAt(s, e, "|)&;");
      var l := ExecReadsBack(s, pos, t.left);
      var r := PipeReadsBack(s, e + 1, t.right);
      PipeStep(s, pos, e, l);
      c := Pipe(l, r);
      ShowsTwo(s, l, r, t.left, t.right);
    } else {
      WeakerFollows(s, pos + |PrintPipe(t)|);
      c := ExecReadsBack(s, pos, t);
      PipeStop(s, pos, pos + |PrintPipe(t)|, c);
    }
  }

  /** parseline's pipeline and "&" loop arrive at the end of what PrintBack wrote. */
  lemma {:induction false} BackReadsBack(s: string, pos: nat, t: Text) returns (c: Cmd<Word>)
    requires Printable(t) && At(s, pos, PrintBack(t)) && Follows(s, pos + |PrintBack(t)|, ")&;")
    ensures Shows(s, c, t) && ReachesBack(s, pos, pos + |PrintBack(t)|, c)
    decreases |PrintBack(t)|, 2
  {
    hide *;
    BackText(t);
    if t.Back? {
      PrintableOne(t);
      AtSplit(s, pos, PrintBack(t.cmd), ['&']);
      var e := pos + |PrintBack(t.cmd)|;
      assert ['&'] + [] == ['&'];
      AtChar(s, e, '&', []);
      FollowsAt(s, e, ")&;");
      var c1 := BackReadsBack(s, pos, t.cmd);
      ReachStep(s, pos, e, c1);
      c := Back(c1);
      ShowsOne(s, c1, t.cmd);
    } else {
      c := PipeReadsBack(s, pos, t);
      ReachStart(s, pos, pos + |PrintBack(t)|, c);
    }
  }

  /** parseline reads back a line. */
  lemma {:induction false} LineReadsBack(s: string, pos: nat, t: Text) returns (c: Cmd<Word>)
    requires Printable(t) && At(s, pos, PrintLine(t)) && Follows(s, pos + |PrintLine(t)|, ")")
    ensures pos <= |s| && ParseLine(s, pos) == Ok(c, pos + |PrintLine(t)|) && Shows(s, c, t)
    decreases |PrintLine(t)|, 3
  {
    hide *;
    LineText(t);
    AtBound(s, pos, PrintLine(t));
    if t.List? {
      PrintableTwo(t);
      AtSplit(s, pos, PrintBack(t.left), [';'] + PrintLine(t.right));
      var e := pos + |PrintBack(t.left)|;
      AtChar(s, e, ';', PrintLine(t.right));
      FollowsAt(s, e, ")&;");
      var l := BackReadsBack(s, pos, t.left);
      var r := LineReadsBack(s, e + 1, t.right);
      LineStep(s, pos, e, l);
      c := List(l, r);
      ShowsTwo(s, l, r, t.left, t.right);
    } else {
      EndFollows(s, pos + |PrintLine(t)|);
      c := BackReadsBack(s, pos, t);
      LineStop(s, pos, pos + |PrintLine(t)|, c);
    }
  }

  /** Round trip: parsecmd reads the line written for a tree back as that tree. */
  lemma {:induction false} ParseReadsBack(t: Text)
    requires Printable(t)
    ensures ParseCmd(PrintLine(t)).Ok? && Shows(PrintLine(t), ParseCmd(PrintLine(t)).value, t)
  {
    hide ParseLine, PrintLine, Shows;
    var s := PrintLine(t);
    assert s[0..|s|] == s;
    var _ := LineReadsBack(s, 0, t);
    NoSkip(s, |s|);
  }

  // ---------- one step of each ----------

  /** ParsePipe and then the "&" loop from pos come to e with the command c. */
  ghost predicate ReachesBack(s: string, pos: nat, e: nat, c: Cmd<Word>) {
    && pos <= |s| && e <= |s| && ParsePipe(s, pos).Ok?
    && var first := ParsePipe(s, pos);
       ParseBacks(s, first.pos, first.value) == ParseBacks(s, e, c)
  }

  lemma {:induction false} ExecText(t: Text)
    ensures PrintExec(t) == PrintBase(Base(t)) + PrintRedirs(Redirections(t))
    ensures Base(t).Exec? ==> PrintExec(t) == PrintArgs(Base(t).args) + PrintRedirs(Redirections(t))
    ensures !Base(t).Redir?
  {
  }

  lemma {:induction false} BlockText(line: string, rest: string)
    ensures "(" + line + ")" + rest == ['('] + (line + ([')'] + rest))
  {
  }

  lemma {:induction false} PipeText(t: Text)
    ensures PrintPipe(t) == if t.Pipe? then PrintExec(t.left) + (['|'] + PrintPipe(t.right)) else PrintExec(t)
  {
  }

  lemma {:induction false} BackText(t: Text)
    ensures PrintBack(t) == if t.Back? then PrintBack(t.cmd) + ['&'] else PrintPipe(t)
  {
  }

  lemma {:induction false} LineText(t: Text)
    ensures PrintLine(t) == if t.List? then PrintBack(t.left) + ([';'] + PrintLine(t.right)) else PrintBack(t)
  {
  }

  lemma {:induction false} PrintableTwo(t: Text)
    requires Printable(t) && (t.Pipe? || t.List?)
    ensures Printable(t.left) && Printable(t.right)
  {
  }

  lemma {:induction false} PrintableOne(t: Text)
    requires Printable(t) && t.Back?
    ensures Printable(t.cmd)
  {
  }

  lemma {:induction false} PrintableArgs(t: Text)
    requires Printable(t) && t.Exec?
    ensures |t.args| < MAXARGS && forall i :: 0 <= i < |t.args| ==> TextWord(t.args[i])
  {
  }

  lemma {:induction false} ShowsTwo(s: string, l: Cmd<Word>, r: Cmd<Word>, tl: Text, tr: Text)
    requires Shows(s, l, tl) && Shows(s, r, tr)
    ensures Shows(s, Pipe(l, r), Pipe(tl, tr)) && Shows(s, List(l, r), List(tl, tr))
  {
  }

  lemma {:induction false} ShowsOne(s: string, c: Cmd<Word>, t: Text)
    requires Shows(s, c, t)
    ensures Shows(s, Back(c), Back(t))
  {
  }

  lemma {:induction false} ShowsNoArgs(s: string)
    ensures Shows(s, Exec([]), Exec([]))
  {
  }

  lemma {:induction false} FollowsAt(s: string, e: nat, toks: string)
    requires e < |s| && s[e] in toks
    ensures Follows(s, e, toks)
  {
  }

  lemma {:induction false} WeakerFollows(s: string, e: nat)
    requires Follows(s, e, ")&;")
    ensures Follows(s, e, "|)&;")
  {
  }

  lemma {:induction false} EndFollows(s: string, e: nat)
    requires Follows(s, e, ")")
    ensures Follows(s, e, ")&;")
  {
  }

  /** A simple command does not start with a parenthesis. */
  lemma {:induction false} NotBlock(s: string, pos: nat, args: seq<string>, rs: seq<Redirection<string>>)
    requires At(s, pos, PrintArgs(args) + PrintRedirs(rs))
    requires Follows(s, pos + |PrintArgs(args) + PrintRedirs(rs)|, "|)&;")
    requires forall i :: 0 <= i < |args| ==> TextWord(args[i])
    requires pos <= |s|
    ensures !Peek(s, pos, "(")
  {
    hide At, PrintArgs, PrintRedirs, SkipSpace, TextWord;
    if |args| == 0 {
      NoArgsText(args, PrintRedirs(rs));
      AfterRedir(s, pos, rs);
      NoSkip(s, pos);
    } else {
      var rest := PrintArgs(args[1..]) + PrintRedirs(rs);
      ArgsText(args, PrintRedirs(rs));
      AtChar(s, pos, ' ', args[0] + rest);
      AtSplit(s, pos + 1, args[0], rest);
      AfterArg(s, pos + 1 + |args[0]|, args[1..], rs);
      WordToken(s, pos + 1, args[0]);
      OneSpace(s, pos);
    }
  }

  lemma {:induction false} ExecIsTail(s: string, pos: nat)
    requires pos <= |s| && !Peek(s, pos, "(")
    ensures ParseExec(s, pos) == Tail(s, pos, [])
  {
  }

  lemma {:induction false} BlockStep(s: string, pos: nat, e: nat, c: Cmd<Word>, ws: seq<Redirection<Word>>, end: nat)
    requires pos < |s| && s[pos] == '(' && e < |s| && s[e] == ')'
    requires ParseLine(s, pos + 1) == Ok(c, e) && ParseRedirs(s, e + 1, []) == Ok(ws, end)
    ensures ParseExec(s, pos) == Ok(Wrap(c, ws), end)
  {
    hide GetToken, Peek, SkipSpace, ParseRedirs, ParseLine, Wrap, Good;
    SymbolToken(s, pos);
    SymbolToken(s, e);
    PeekAt(s, pos, "(");
    PeekAt(s, e, ")");
    LineFromBlanks(s, pos + 1);
    RedirsFromBlanks(s, e + 1, []);
  }

  lemma {:induction false} PipeStep(s: string, pos: nat, e: nat, c: Cmd<Word>)
    requires pos <= |s| && e < |s| && s[e] == '|' && ParseExec(s, pos) == Ok(c, e)
    requires ParsePipe(s, e + 1).Ok?
    ensures var r := ParsePipe(s, e + 1); ParsePipe(s, pos) == Ok(Pipe(c, r.value), r.pos)
  {
    hide GetToken, Peek, SkipSpace, ParseExec, Good;
    SymbolToken(s, e);
    PeekAt(s, e, "|");
    PipeFromBlanks(s, e + 1);
  }

  lemma {:induction false} PipeStop(s: string, pos: nat, e: nat, c: Cmd<Word>)
    requires pos <= |s| && Follows(s, e, ")&;") && ParseExec(s, pos) == Ok(c, e)
    ensures ParsePipe(s, pos) == Ok(c, e)
  {
    hide GetToken, Peek, SkipSpace, ParseExec, Good;
    AtEnd(s, e, ")&;", "|");
  }

  lemma {:induction false} ReachStart(s: string, pos: nat, e: nat, c: Cmd<Word>)
    requires pos <= |s| && ParsePipe(s, pos) == Ok(c, e)
    ensures ReachesBack(s, pos, e, c)
  {
    hide ParsePipe, ParseBacks;
  }

  lemma {:induction false} ReachStep(s: string, pos: nat, e: nat, c: Cmd<Word>)
    requires ReachesBack(s, pos, e, c) && e < |s| && s[e] == '&'
    ensures ReachesBack(s, pos, e + 1, Back(c))
  {
    hide GetToken, Peek, SkipSpace, ParsePipe, ParseBacks;
    SymbolToken(s, e);
    PeekAt(s, e, "&");
    BacksUnfold(s, e, c);
    BacksFromBlanks(s, e + 1, Back(c));
  }

  lemma {:induction false} LineStep(s: string, pos: nat, e: nat, c: Cmd<Word>)
    requires ReachesBack(s, pos, e, c) && e < |s| && s[e] == ';' && ParseLine(s, e + 1).Ok?
    ensures var r := ParseLine(s, e + 1); ParseLine(s, pos) == Ok(List(c, r.value), r.pos)
  {
    hide GetToken, Peek, SkipSpace, ParsePipe, ParseBacks, Good;
    SymbolToken(s, e);
    PeekAt(s, e, "&");
    PeekAt(s, e, ";");
    BacksUnfold(s, e, c);
    LineFromBlanks(s, e + 1);
  }

  lemma {:induction false} LineStop(s: string, pos: nat, e: nat, c: Cmd<Word>)
    requires ReachesBack(s, pos, e, c) && Follows(s, e, ")")
    ensures ParseLine(s, pos) == Ok(c, e)
  {
    hide GetToken, Peek, SkipSpace, ParsePipe, ParseBacks, Good;
    AtEnd(s, e, ")", "&");
    AtEnd(s, e, ")", ";");
    BacksUnfold(s, e, c);
  }
}
