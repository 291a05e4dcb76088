/**
  The shell's tokens and recursive-descent parser (sh.c) as functions of the command line and a cursor.
  The line is the text before its NUL, so the end pointer es is the line's length. A word is the pair of
  pointers that the parser stores; nulterminate later turns it into a C string in place.
 */
module Shell {

  const MAXARGS := 10
  const NUL := '\0'

  datatype Word = Word(q: nat, eq: nat)

  datatype Redirection<W> = Redirection(file: W, input: bool)

  datatype Cmd<W> =
    | Exec(args: seq<W>)
    | Redir(cmd: Cmd<W>, to: Redirection<W>)
    | Pipe(left: Cmd<W>, right: Cmd<W>)
    | List(left: Cmd<W>, right: Cmd<W>)
    | Back(cmd: Cmd<W>)

  datatype Result<T> = Ok(value: T, pos: nat) | Panic(message: string)

  // ---------- tokens ----------

  predicate Space(c: char) {
    c == ' ' || c == '\t' || c == '\r' || c == '\n' || c == '\U{0B}'
  }

  predicate Symbol(c: char) {
    c == '<' || c == '|' || c == '>' || c == '&' || c == ';' || c == '(' || c == ')'
  }

  predicate WordChar(c: char) {
    !Space(c) && !Symbol(c)
  }

  function SkipSpace(s: string, i: nat): (j: nat)
    requires i <= |s|
    ensures i <= j <= |s| && (j < |s| ==> !Space(s[j]))
    ensures forall k :: i <= k < j ==> Space(s[k])
    decreases |s| - i
  {
    if i < |s| && Space(s[i]) then SkipSpace(s, i + 1) else i
  }

  function WordEnd(s: string, i: nat): (j: nat)
    requires i <= |s|
    ensures i <= j <= |s| && (j < |s| ==> !WordChar(s[j]))
    ensures forall k :: i <= k < j ==> WordChar(s[k])
    decreases |s| - i
  {
    if i < |s| && WordChar(s[i]) then WordEnd(s, i + 1) else i
  }

  datatype Token = Token(kind: char, word: Word, next: nat)

  /** gettoken's result; the kind of a word is 'a', of ">>" is '+', and NUL at the end of the line. */
  function GetToken(s: string, pos: nat): (t: Token)
    requires pos <= |s|
    ensures pos <= t.next <= |s|
    ensures t.kind != NUL ==> t.next > pos
    ensures t.kind == 'a' ==> IsWord(s, t.word)
  {
    var q := SkipSpace(s, pos);
    if q == |s| then Token(NUL, Word(q, q), q)
    else
      var eq :=
        if s[q] == '>' && q + 1 < |s| && s[q + 1] == '>' then q + 2
        else if Symbol(s[q]) then q + 1
        else WordEnd(s, q);
      var kind := if Symbol(s[q]) then if eq == q + 2 then '+' else s[q] else 'a';
      Token(kind, Word(q, eq), SkipSpace(s, eq))
  }

  /** peek's answer; the cursor moves to SkipSpace(s, pos). */
  predicate Peek(s: string, pos: nat, toks: string)
    requires pos <= |s|
  {
    var p := SkipSpace(s, pos);
    p < |s| && s[p] in toks
  }

  /** A run of word characters that stops at the end of the line or at another character. */
  ghost predicate IsWord(s: string, w: Word) {
    && w.q < w.eq <= |s|
    && (forall k :: w.q <= k < w.eq ==> WordChar(s[k]))
    && (w.eq < |s| ==> !WordChar(s[w.eq]))
  }

  // ---------- the parser ----------

  /** The redirections wrapped around a command, the first one innermost. */
  function Wrap<W>(c: Cmd<W>, rs: seq<Redirection<W>>): (r: Cmd<W>) {
    if |rs| == 0 then c else Redir(Wrap(c, rs[..|rs| - 1]), rs[|rs| - 1])
  }

  function Words(c: Cmd<Word>): (ws: seq<Word>) {
    match c
    case Exec(args) => args
    case Redir(c1, to) => Words(c1) + [to.file]
    case Pipe(l, r) => Words(l) + Words(r)
    case List(l, r) => Words(l) + Words(r)
    case Back(c1) => Words(c1)
  }

  ghost predicate AllWords(s: string, ws: seq<Word>) {
    forall w :: w in ws ==> IsWord(s, w)
  }

  ghost predicate AllFiles(s: string, rs: seq<Redirection<Word>>) {
    forall r :: r in rs ==> IsWord(s, r.file)
  }

  /** What a returned command is: its words are words of the line, and each argv has room for its null. */
  ghost predicate Good(s: string, c: Cmd<Word>) {
    match c
    case Exec(args) => |args| < MAXARGS && AllWords(s, args)
    case Redir(c1, to) => Good(s, c1) && IsWord(s, to.file)
    case Pipe(l, r) => Good(s, l) && Good(s, r)
    case List(l, r) => Good(s, l) && Good(s, r)
    case Back(c1) => Good(s, c1)
  }

  lemma {:induction false} WrapGood(s: string, c: Cmd<Word>, rs: seq<Redirection<Word>>)
    requires Good(s, c) && AllFiles(s, rs)
    ensures Good(s, Wrap(c, rs))
  {
    if |rs| > 0 {
      WrapGood(s, c, rs[..|rs| - 1]);
    }
  }

  /** parseredirs: the redirections found from pos, after those in rs. */
  function ParseRedirs(s: string, pos: nat, rs: seq<Redirection<Word>>): (r: Result<seq<Redirection<Word>>>)
    requires pos <= |s|
    ensures r.Ok? ==> pos <= r.pos <= |s| && (AllFiles(s, rs) ==> AllFiles(s, r.value))
    decreases |s| - pos
  {
    if Peek(s, pos, "<>") then
      var op := GetToken(s, pos);
      var file := GetToken(s, op.next);
      if file.kind != 'a' then Panic("missing file for redirection")
      else ParseRedirs(s, file.next, rs + [Redirection(file.word, op.kind == '<')])
    else Ok(rs, SkipSpace(s, pos))
  }

  /** The loop of parseexec, with the arguments and redirections so far. */
  function ParseArgs(s: string, pos: nat, args: seq<Word>, rs: seq<Redirection<Word>>): (r: Result<Cmd<Word>>)
    requires pos <= |s|
    ensures r.Ok? ==> pos <= r.pos <= |s|
    ensures r.Ok? && |args| < MAXARGS && AllWords(s, args) && AllFiles(s, rs) ==> Good(s, r.value)
    decreases |s| - pos
  {
    var t := GetToken(s, pos);
    if Peek(s, pos, "|)&;") || t.kind == NUL then
      assert |args| < MAXARGS && AllWords(s, args) && AllFiles(s, rs) ==> Good(s, Wrap(Exec(args), rs)) by {
        if |args| < MAXARGS && AllWords(s, args) && AllFiles(s, rs) {
          WrapGood(s, Exec(args), rs);
        }
      }
      Ok(Wrap(Exec(args), rs), SkipSpace(s, pos))
    else if t.kind != 'a' then Panic("syntax")
    else if |args| + 1 >= MAXARGS then Panic("too many args")
    else
      var redirs := ParseRedirs(s, t.next, rs);
      if redirs.Panic? then Panic(redirs.message)
      else ParseArgs(s, redirs.pos, args + [t.word], redirs.value)
  }

  function ParseExec(s: string, pos: nat): (r: Result<Cmd<Word>>)
    requires pos <= |s|
    ensures r.Ok? ==> pos <= r.pos <= |s| && Good(s, r.value)
    decreases |s| - pos, 1
  {
    if Peek(s, pos, "(") then ParseBlock(s, SkipSpace(s, pos))
    else
      var redirs := ParseRedirs(s, pos, []);
      if redirs.Panic? then Panic(redirs.message) else ParseArgs(s, redirs.pos, [], redirs.value)
  }

  /** parseblock, called at its "(". */
  function ParseBlock(s: string, pos: nat): (r: Result<Cmd<Word>>)
    requires pos <= |s| && Peek(s, pos, "(")
    ensures r.Ok? ==> pos <= r.pos <= |s| && Good(s, r.value)
    decreases |s| - pos, 0
  {
    var line := ParseLine(s, GetToken(s, pos).next);
    if line.Panic? then line
    else if !Peek(s, line.pos, ")") then Panic("syntax - missing )")
    else
      var redirs := ParseRedirs(s, GetToken(s, line.pos).next, []);
      if redirs.Panic? then Panic(redirs.message)
      else
        WrapGood(s, line.value, redirs.value);
        Ok(Wrap(line.value, redirs.value), redirs.pos)
  }

  function ParsePipe(s: string, pos: nat): (r: Result<Cmd<Word>>)
    requires pos <= |s|
    ensures r.Ok? ==> pos <= r.pos <= |s| && Good(s, r.value)
    decreases |s| - pos, 2
  {
    var first := ParseExec(s, pos);
    if first.Panic? then first
    else if Peek(s, first.pos, "|") then
      var rest := ParsePipe(s, GetToken(s, first.pos).next);
      if rest.Panic? then rest else Ok(Pipe(first.value, rest.value), rest.pos)
    else Ok(first.value, SkipSpace(s, first.pos))
  }

  /** The loop of parseline over trailing "&". */
  function ParseBacks(s: string, pos: nat, c: Cmd<Word>): (r: Result<Cmd<Word>>)
    requires pos <= |s|
    ensures r.Ok? && pos <= r.pos <= |s| && (Good(s, c) ==> Good(s, r.value))
    decreases |s| - pos
  {
    if Peek(s, pos, "&") then ParseBacks(s, GetToken(s, pos).next, Back(c)) else Ok(c, SkipSpace(s, pos))
  }

  function ParseLine(s: string, pos: nat): (r: Result<Cmd<Word>>)
    requires pos <= |s|
    ensures r.Ok? ==> pos <= r.pos <= |s| && Good(s, r.value)
    decreases |s| - pos, 3
  {
    var first := ParsePipe(s, pos);
    if first.Panic? then first
    else
      var back := ParseBacks(s, first.pos, first.value);
      if Peek(s, back.pos, ";") then
        var rest := ParseLine(s, GetToken(s, back.pos).next);
        if rest.Panic? then rest else Ok(List(back.value, rest.value), rest.pos)
      else Ok(back.value, SkipSpace(s, back.pos))
  }

  /** parsecmd before nulterminate: the whole line is one command or the shell panics. */
  function ParseCmd(s: string): (r: Result<Cmd<Word>>)
    ensures r.Ok? ==> Good(s, r.value)
  {
    var line := ParseLine(s, 0);
    if line.Panic? then line
    else if SkipSpace(s, line.pos) != |s| then Panic("syntax")
    else Ok(line.value, |s|)
  }
}
