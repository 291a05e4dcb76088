/**
  The parser of sh.c in its own form: a cursor moved along the line by loops, and nulterminate writing
  NULs into the line's buffer. Each method is the function of module Shell.
 */
module ShellParser {
  import opened Shell

  /** The line being parsed and the shared cursor *ps. */
  class Cursor {
    const s: string
    var ps: nat

    constructor (s: string)
      ensures this.s == s && ps == 0
    {
      this.s := s;
      ps := 0;
    }

    method SkipBlanks()
      requires ps <= |s|
      modifies this
      ensures ps == SkipSpace(s, old(ps))
    {
      while ps < |s| && Space(s[ps])
        invariant old(ps) <= ps <= |s| && SkipSpace(s, ps) == SkipSpace(s, old(ps))
      {
        ps := ps + 1;
      }
    }

    method PeekAt(toks: string) returns (found: bool)
      requires ps <= |s|
      modifies this
      ensures ps == SkipSpace(s, old(ps)) && found == Peek(s, old(ps), toks)
    {
      SkipBlanks();
      found := ps < |s| && s[ps] in toks;
    }

    method NextToken() returns (kind: char, q: nat, eq: nat)
      requires ps <= |s|
      modifies this
      ensures var t := GetToken(s, old(ps)); kind == t.kind && Word(q, eq) == t.word && ps == t.next
    {
      SkipBlanks();
      q := ps;
      if ps == |s| {
        kind := NUL;
      } else if s[ps] == '>' {
        kind, ps := '>', ps + 1;
        if ps < |s| && s[ps] == '>' {
          kind, ps := '+', ps + 1;
        }
      } else if Symbol(s[ps]) {
        kind, ps := s[ps], ps + 1;
      } else {
        kind := 'a';
        while ps < |s| && WordChar(s[ps])
          invariant q <= ps <= |s| && WordEnd(s, ps) == WordEnd(s, q)
        {
          ps := ps + 1;
        }
      }
      eq := ps;
      SkipBlanks();
    }

    method Redirs(rs0: seq<Redirection<Word>>) returns (r: Result<seq<Redirection<Word>>>)
      requires ps <= |s|
      modifies this
      ensures r == ParseRedirs(s, old(ps), rs0)
      ensures r.Ok? ==> ps == r.pos
    {
      hide GetToken, Peek, SkipSpace, ParseRedirs;
      var rs := rs0;
      var more := PeekAt("<>");
      RedirsFromBlanks(s, old(ps), rs);
      while more
        invariant ps <= |s| && ps == SkipSpace(s, ps) && more == Peek(s, ps, "<>")
        invariant ParseRedirs(s, ps, rs) == ParseRedirs(s, old(ps), rs0)
        decreases |s| - ps
      {
        RedirsUnfold(s, ps, rs);
        var op, _, _ := NextToken();
        var kind, q, eq := NextToken();
        if kind != 'a' {
          return Panic("missing file for redirection");
        }
        rs := rs + [Redirection(Word(q, eq), op == '<')];
        RedirsFromBlanks(s, ps, rs);
        more := PeekAt("<>");
      }
      RedirsUnfold(s, ps, rs);
      r := Ok(rs, ps);
    }

    method Args(rs0: seq<Redirection<Word>>) returns (r: Result<Cmd<Word>>)
      requires ps <= |s|
      modifies this
      ensures r == ParseArgs(s, old(ps), [], rs0)
      ensures r.Ok? ==> ps == r.pos
    {
      hide GetToken, Peek, SkipSpace, ParseRedirs, ParseArgs, Wrap;
      var args: seq<Word>, rs := [], rs0;
      ArgsFromBlanks(s, ps, args, rs);
      var stop := PeekAt("|)&;");
      while !stop
        invariant ps <= |s| && ps == SkipSpace(s, ps) && stop == Peek(s, ps, "|)&;")
        invariant ParseArgs(s, ps, args, rs) == ParseArgs(s, old(ps), [], rs0)
        decreases |s| - ps
      {
        ArgsUnfold(s, ps, args, rs);
        var kind, q, eq := NextToken();
        if kind == NUL {
          break;
        }
        if kind != 'a' {
          return Panic("syntax");
        }
        args := args + [Word(q, eq)];
        if |args| >= MAXARGS {
          return Panic("too many args");
        }
        var redirs := Redirs(rs);
        if redirs.Panic? {
          return Panic(redirs.message);
        }
        rs := redirs.value;
        ArgsFromBlanks(s, ps, args, rs);
        stop := PeekAt("|)&;");
      }
      ArgsUnfold(s, ps, args, rs);
      r := Ok(Wrap(Exec(args), rs), ps);
    }

    method ExecOrBlock() returns (r: Result<Cmd<Word>>)
      requires ps <= |s|
      modifies this
      ensures r == ParseExec(s, old(ps)) && (r.Ok? ==> ps == r.pos)
      decreases |s| - ps, 1
    {
      hide GetToken, Peek, SkipSpace, ParseRedirs, ParseArgs, ParseBlock;
      TokenFromBlanks(s, ps, "(");
      RedirsFromBlanks(s, ps, []);
      var block := PeekAt("(");
      if block {
        r := Block();
        return;
      }
      var redirs := Redirs([]);
      if redirs.Panic? {
        return Panic(redirs.message);
      }
      r := Args(redirs.value);
    }

    method Block() returns (r: Result<Cmd<Word>>)
      requires ps <= |s| && Peek(s, ps, "(")
      modifies this
      ensures r == ParseBlock(s, old(ps)) && (r.Ok? ==> ps == r.pos)
      decreases |s| - ps, 0
    {
      hide GetToken, Peek, SkipSpace, ParseRedirs, ParseLine, Wrap, Good;
      PeekIsToken(s, ps, "(");
      var _, _, _ := NextToken();
      r := LineAt();
      if r.Panic? {
        return;
      }
      TokenFromBlanks(s, ps, ")");
      var closed := PeekAt(")");
      if !closed {
        return Panic("syntax - missing )");
      }
      var _, _, _ := NextToken();
      var redirs := Redirs([]);
      if redirs.Panic? {
        return Panic(redirs.message);
      }
      r := Ok(Wrap(r.value, redirs.value), ps);
    }

    method PipeAt() returns (r: Result<Cmd<Word>>)
      requires ps <= |s|
      modifies this
      ensures r == ParsePipe(s, old(ps)) && (r.Ok? ==> ps == r.pos)
      decreases |s| - ps, 2
    {
      hide GetToken, Peek, SkipSpace, ParseExec, Good;
      r := ExecOrBlock();
      if r.Panic? {
        return;
      }
      TokenFromBlanks(s, ps, "|");
      PeekIsToken(s, ps, "|");
      var more := PeekAt("|");
      if more {
        var _, _, _ := NextToken();
        var rest := PipeAt();
        if rest.Panic? {
          return rest;
        }
        r := Ok(Pipe(r.value, rest.value), ps);
      } else {
        r := Ok(r.value, ps);
      }
    }

    method LineAt() returns (r: Result<Cmd<Word>>)
      requires ps <= |s|
      modifies this
      ensures r == ParseLine(s, old(ps)) && (r.Ok? ==> ps == r.pos)
      decreases |s| - ps, 3
    {
      hide GetToken, Peek, SkipSpace, ParsePipe, ParseBacks, Good;
      r := PipeAt();
      if r.Panic? {
        return;
      }
      var cmd := Backs(r.value);
      TokenFromBlanks(s, ps, ";");
      PeekIsToken(s, ps, ";");
      var more := PeekAt(";");
      if more {
        var _, _, _ := NextToken();
        var rest := LineAt();
        if rest.Panic? {
          return rest;
        }
        r := Ok(List(cmd, rest.value), ps);
      } else {
        r := Ok(cmd, ps);
      }
    }

    /** parseline's loop over "&". */
    method Backs(c0: Cmd<Word>) returns (c: Cmd<Word>)
      requires ps <= |s|
      modifies this
      ensures ps <= |s| && Ok(c, ps) == ParseBacks(s, old(ps), c0)
    {
      hide GetToken, Peek, SkipSpace, ParseBacks;
      c := c0;
      BacksFromBlanks(s, ps, c);
      var more := PeekAt("&");
      while more
        invariant ps <= |s| && ps == SkipSpace(s, ps) && more == Peek(s, ps, "&")
        invariant ParseBacks(s, ps, c) == ParseBacks(s, old(ps), c0)
        decreases |s| - ps
      {
        BacksUnfold(s, ps, c);
        PeekIsToken(s, ps, "&");
        var _, _, _ := NextToken();
        c := Back(c);
        BacksFromBlanks(s, ps, c);
        more := PeekAt("&");
      }
      BacksUnfold(s, ps, c);
    }
  }

  lemma {:induction false} TokenFromBlanks(s: string, pos: nat, toks: string)
    requires pos <= |s|
    ensures var p := SkipSpace(s, pos);
      SkipSpace(s, p) == p && GetToken(s, p) == GetToken(s, pos) && Peek(s, p, toks) == Peek(s, pos, toks)
  {
  }

  lemma {:induction false} RedirsUnfold(s: string, pos: nat, rs: seq<Redirection<Word>>)
    requires pos <= |s|
    ensures ParseRedirs(s, pos, rs) ==
      if Peek(s, pos, "<>") then
        var op := GetToken(s, pos);
        var file := GetToken(s, op.next);
        if file.kind != 'a' then Panic("missing file for redirection")
        else ParseRedirs(s, file.next, rs + [Redirection(file.word, op.kind == '<')])
      else Ok(rs, SkipSpace(s, pos))
    ensures Peek(s, pos, "<>") ==> GetToken(s, pos).kind != NUL
  {
  }

  lemma {:induction false} RedirsFromBlanks(s: string, pos: nat, rs: seq<Redirection<Word>>)
    requires pos <= |s|
    ensures SkipSpace(s, SkipSpace(s, pos)) == SkipSpace(s, pos)
    ensures Peek(s, SkipSpace(s, pos), "<>") == Peek(s, pos, "<>")
    ensures ParseRedirs(s, SkipSpace(s, pos), rs) == ParseRedirs(s, pos, rs)
  {
    hide GetToken, Peek, SkipSpace, ParseRedirs;
    TokenFromBlanks(s, pos, "<>");
    RedirsUnfold(s, pos, rs);
    RedirsUnfold(s, SkipSpace(s, pos), rs);
  }

  lemma {:induction false} ArgsUnfold(s: string, pos: nat, args: seq<Word>, rs: seq<Redirection<Word>>)
    requires pos <= |s|
    ensures ParseArgs(s, pos, args, rs) ==
      var t := GetToken(s, pos);
      if Peek(s, pos, "|)&;") || t.kind == NUL then Ok(Wrap(Exec(args), rs), SkipSpace(s, pos))
      else if t.kind != 'a' then Panic("syntax")
      else if |args| + 1 >= MAXARGS then Panic("too many args")
      else
        var redirs := ParseRedirs(s, t.next, rs);
        if redirs.Panic? then Panic(redirs.message)
        else ParseArgs(s, redirs.pos, args + [t.word], redirs.value)
    ensures GetToken(s, pos).kind == NUL ==> GetToken(s, pos).next == SkipSpace(s, pos)
  {
  }

  lemma {:induction false} ArgsFromBlanks(s: string, pos: nat, args: seq<Word>, rs: seq<Redirection<Word>>)
    requires pos <= |s|
    ensures SkipSpace(s, SkipSpace(s, pos)) == SkipSpace(s, pos)
    ensures Peek(s, SkipSpace(s, pos), "|)&;") == Peek(s, pos, "|)&;")
    ensures ParseArgs(s, SkipSpace(s, pos), args, rs) == ParseArgs(s, pos, args, rs)
  {
    hide GetToken, Peek, SkipSpace, ParseRedirs, ParseArgs, Wrap;
    TokenFromBlanks(s, pos, "|)&;");
    ArgsUnfold(s, pos, args, rs);
    ArgsUnfold(s, SkipSpace(s, pos), args, rs);
  }

  lemma {:induction false} PeekIsToken(s: string, pos: nat, toks: string)
    requires pos <= |s|
    requires NUL !in toks
    ensures Peek(s, pos, toks) ==> GetToken(s, pos).next > pos
  {
  }

  lemma {:induction false} BacksUnfold(s: string, pos: nat, c: Cmd<Word>)
    requires pos <= |s|
    ensures ParseBacks(s, pos, c) ==
      if Peek(s, pos, "&") then ParseBacks(s, GetToken(s, pos).next, Back(c)) else Ok(c, SkipSpace(s, pos))
  {
  }

  lemma {:induction false} BacksFromBlanks(s: string, pos: nat, c: Cmd<Word>)
    requires pos <= |s|
    ensures SkipSpace(s, SkipSpace(s, pos)) == SkipSpace(s, pos)
    ensures Peek(s, SkipSpace(s, pos), "&") == Peek(s, pos, "&")
    ensures ParseBacks(s, SkipSpace(s, pos), c) == ParseBacks(s, pos, c)
  {
    hide GetToken, Peek, SkipSpace, ParseBacks;
    TokenFromBlanks(s, pos, "&");
    BacksUnfold(s, pos, c);
    BacksUnfold(s, SkipSpace(s, pos), c);
  }

  // ---------- C strings ----------

  ghost predicate NulFree(s: string) {
    NUL !in s
  }

  /** The C string that starts at q. */
  function CString(b: seq<char>, q: nat): (t: string)
    decreases |b| - q
  {
    if q < |b| && b[q] != NUL then [b[q]] + CString(b, q + 1) else []
  }

  ghost predicate IsEnd(ws: seq<Word>, i: int) {
    exists w :: w in ws && w.eq == i
  }

  /** The line's buffer after nulterminate: NULs at the ends of the words, nothing else changed. */
  ghost predicate Terminated(was: seq<char>, now: seq<char>, ws: seq<Word>) {
    |was| == |now| && forall i :: 0 <= i < |now| ==> now[i] == if IsEnd(ws, i) then NUL else was[i]
  }

  lemma {:induction false} TerminatedTwice(a: seq<char>, b: seq<char>, c: seq<char>, ws: seq<Word>, vs: seq<Word>)
    requires Terminated(a, b, ws) && Terminated(b, c, vs)
    ensures Terminated(a, c, ws + vs)
  {
    forall i | 0 <= i < |c|
      ensures c[i] == if IsEnd(ws + vs, i) then NUL else a[i]
    {
      assert IsEnd(ws + vs, i) <==> IsEnd(ws, i) || IsEnd(vs, i);
    }
  }

  lemma {:induction false} TerminatedOnce(a: seq<char>, w: Word)
    requires w.eq < |a|
    ensures Terminated(a, a[w.eq := NUL], [w])
  {
    assert w in [w];
  }

  method Nulterminate(buf: array<char>, c: Cmd<Word>)
    requires forall w :: w in Words(c) ==> w.eq < buf.Length
    modifies buf
    ensures Terminated(old(buf[..]), buf[..], Words(c))
    decreases c
  {
    hide Terminated;
    match c
    case Exec(args) =>
      var i := 0;
      SameTerminated(buf[..]);
      while i < |args|
        invariant i <= |args| && Terminated(old(buf[..]), buf[..], args[..i])
      {
        TerminatedOnce(buf[..], args[i]);
        TerminatedTwice(old(buf[..]), buf[..], buf[..][args[i].eq := NUL], args[..i], [args[i]]);
        assert args[..i + 1] == args[..i] + [args[i]];
        buf[args[i].eq] := NUL;
        i := i + 1;
      }
      assert args[..i] == args;
    case Redir(c1, to) =>
      Nulterminate(buf, c1);
      TerminatedOnce(buf[..], to.file);
      TerminatedTwice(old(buf[..]), buf[..], buf[..][to.file.eq := NUL], Words(c1), [to.file]);
      buf[to.file.eq] := NUL;
    case Pipe(l, r) =>
      Nulterminate(buf, l);
      ghost var mid := buf[..];
      Nulterminate(buf, r);
      TerminatedTwice(old(buf[..]), mid, buf[..], Words(l), Words(r));
    case List(l, r) =>
      Nulterminate(buf, l);
      ghost var mid := buf[..];
      Nulterminate(buf, r);
      TerminatedTwice(old(buf[..]), mid, buf[..], Words(l), Words(r));
    case Back(c1) =>
      Nulterminate(buf, c1);
  }

  lemma {:induction false} SameTerminated(a: seq<char>)
    ensures Terminated(a, a, [])
  {
  }

  lemma {:induction false} GoodWords(s: string, c: Cmd<Word>)
    requires Good(s, c)
    ensures AllWords(s, Words(c))
  {
    match c
    case Exec(args) =>
    case Redir(c1, to) =>
      GoodWords(s, c1);
    case Pipe(l, r) =>
      GoodWords(s, l);
      GoodWords(s, r);
    case List(l, r) =>
      GoodWords(s, l);
      GoodWords(s, r);
    case Back(c1) =>
      GoodWords(s, c1);
  }

  lemma {:induction false} CStringIs(b: seq<char>, q: nat, e: nat)
    requires q <= e < |b| && b[e] == NUL && forall k :: q <= k < e ==> b[k] != NUL
    ensures CString(b, q) == b[q..e]
    decreases e - q
  {
    if q < e {
      CStringIs(b, q + 1, e);
      assert b[q..e] == [b[q]] + b[q + 1..e];
    }
  }

  /** No NUL lands inside a word: each word reads back as its own slice of the line. */
  lemma {:induction false} WordsReadBack(s: string, was: seq<char>, now: seq<char>, ws: seq<Word>, w: Word)
    requires AllWords(s, ws) && NulFree(s) && w in ws
    requires |s| < |was| && was[..|s|] == s && Terminated(was, now, ws)
    ensures CString(now, w.q) == s[w.q..w.eq]
  {
    assert IsWord(s, w);
    assert IsEnd(ws, w.eq);
    forall k | w.q <= k < w.eq
      ensures now[k] == s[k] != NUL
    {
      assert was[k] == s[k];
      forall v | v in ws
        ensures v.eq != k
      {
        assert IsWord(s, v);
      }
    }
    CStringIs(now, w.q, w.eq);
    assert now[w.q..w.eq] == s[w.q..w.eq];
  }

  lemma {:induction false} StringBefore(b: seq<char>, n: nat)
    requires n < |b| && b[n] == NUL && NUL !in b[..n]
    ensures CString(b, 0) == b[..n]
  {
    assert forall k :: 0 <= k < n ==> b[k] == b[..n][k];
    CStringIs(b, 0, n);
  }

  /** parsecmd: parse the line in the buffer, then make every word a C string in place. */
  method ParseCommand(buf: array<char>) returns (r: Result<Cmd<Word>>)
    requires NUL in buf[..]
    modifies buf
    ensures r == ParseCmd(CString(old(buf[..]), 0))
    ensures r.Panic? ==> buf[..] == old(buf[..])
    ensures r.Ok? ==> forall w :: w in Words(r.value) ==>
      w.q <= w.eq <= |CString(old(buf[..]), 0)| && CString(buf[..], w.q) == CString(old(buf[..]), 0)[w.q..w.eq]
  {
    hide Terminated, ParseLine, SkipSpace, Good, IsEnd;
    var n := 0;
    while buf[n] != NUL
      invariant n < buf.Length && NUL in buf[n..] && NUL !in buf[..n]
      decreases buf.Length - n
    {
      assert buf[..n + 1] == buf[..n] + [buf[n]];
      assert buf[n..] == [buf[n]] + buf[n + 1..];
      n := n + 1;
    }
    ghost var was := buf[..];
    var line := buf[..n];
    StringBefore(was, n);
    var cursor := new Cursor(line);
    r := cursor.LineAt();
    if r.Panic? {
      return;
    }
    TokenFromBlanks(line, cursor.ps, "");
    var _ := cursor.PeekAt("");
    if cursor.ps != |line| {
      return Panic("syntax");
    }
    r := Ok(r.value, |line|);
    GoodWords(line, r.value);
    assert forall w :: w in Words(r.value) ==> IsWord(line, w);
    Nulterminate(buf, r.value);
    forall w | w in Words(r.value)
      ensures CString(buf[..], w.q) == line[w.q..w.eq]
    {
      WordsReadBack(line, was, buf[..], Words(r.value), w);
    }
  }
}
