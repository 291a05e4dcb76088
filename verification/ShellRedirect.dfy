/** ">>" in the shell (sh.c): it is read as a token of its own, and then treated as ">". */
module ShellRedirect {
  import opened Shell
  import opened ShellParser

  /** From i on, s is what t is from j on. */
  ghost predicate Aligned(s: string, i: nat, t: string, j: nat) {
    i <= |s| && j <= |t| && s[i..] == t[j..]
  }

  lemma {:induction false} AlignedOn(s: string, i: nat, t: string, j: nat, k: nat)
    requires Aligned(s, i, t, j) && i + k <= |s|
    ensures j + k <= |t| && |s| - i == |t| - j && Aligned(s, i + k, t, j + k)
    ensures i + k < |s| ==> s[i + k] == t[j + k]
  {
    assert |s[i..]| == |t[j..]|;
    assert s[i + k..] == s[i..][k..] && t[j + k..] == t[j..][k..];
    assert i + k < |s| ==> s[i + k] == s[i..][k] && t[j + k] == t[j..][k];
  }

  lemma {:induction false} AlignedBound(s: string, i: nat, t: string, j: nat)
    requires Aligned(s, i, t, j)
    ensures i <= |s| && j <= |t|
  {
  }

  lemma {:induction false} SkipAligned(s: string, i: nat, t: string, j: nat)
    requires Aligned(s, i, t, j)
    ensures SkipSpace(s, i) - i == SkipSpace(t, j) - j
    decreases |s| - i
  {
    AlignedOn(s, i, t, j, 0);
    if i < |s| && Space(s[i]) {
      AlignedOn(s, i, t, j, 1);
      SkipAligned(s, i + 1, t, j + 1);
    }
  }

  lemma {:induction false} WordAligned(s: string, i: nat, t: string, j: nat)
    requires Aligned(s, i, t, j)
    ensures WordEnd(s, i) - i == WordEnd(t, j) - j
    decreases |s| - i
  {
    AlignedOn(s, i, t, j, 0);
    if i < |s| && WordChar(s[i]) {
      AlignedOn(s, i, t, j, 1);
      WordAligned(s, i + 1, t, j + 1);
    }
  }

  /** The same token, as far from where the search began. */
  ghost predicate SameToken(a: Token, i: nat, b: Token, j: nat) {
    a.kind == b.kind && a.next - i == b.next - j && a.word.q - i == b.word.q - j && a.word.eq - i == b.word.eq - j
  }

  lemma {:induction false} TokenAligned(s: string, i: nat, t: string, j: nat)
    requires Aligned(s, i, t, j)
    ensures SameToken(GetToken(s, i), i, GetToken(t, j), j)
  {
    hide SkipSpace, WordEnd, IsWord, Aligned;
    SkipAligned(s, i, t, j);
    var q, r := SkipSpace(s, i), SkipSpace(t, j);
    AlignedOn(s, i, t, j, q - i);
    if q < |s| {
      AlignedOn(s, q, t, r, 1);
      WordAligned(s, q, t, r);
      var e := GetToken(s, i).word.eq;
      AlignedOn(s, q, t, r, e - q);
      SkipAligned(s, e, t, r + (e - q));
    }
  }

  /** The same redirections as text. */
  ghost predicate SameRedirs(s: string, a: seq<Redirection<Word>>, t: string, b: seq<Redirection<Word>>) {
    |a| == |b| && forall k :: 0 <= k < |a| ==> SameRedir(s, a[k], t, b[k])
  }

  ghost predicate SameRedir(s: string, a: Redirection<Word>, t: string, b: Redirection<Word>) {
    && a.input == b.input
    && a.file.q <= a.file.eq <= |s| && b.file.q <= b.file.eq <= |t| && s[a.file.q..a.file.eq] == t[b.file.q..b.file.eq]
  }

  /** Parsing the same text gives the same result. */
  ghost predicate SameResult(s: string, i: nat, a: Result<seq<Redirection<Word>>>, t: string, j: nat,
      b: Result<seq<Redirection<Word>>>) {
    if a.Ok? then b.Ok? && a.pos - i == b.pos - j && SameRedirs(s, a.value, t, b.value) else a == b
  }

  lemma {:induction false} SameWord(s: string, i: nat, t: string, j: nat, a: Word, b: Word)
    requires Aligned(s, i, t, j) && i <= a.q <= a.eq <= |s| && a.q - i == b.q - j && a.eq - i == b.eq - j
    ensures b.q <= b.eq <= |t| && s[a.q..a.eq] == t[b.q..b.eq]
  {
    assert |s[i..]| == |t[j..]|;
    assert s[a.q..a.eq] == s[i..][a.q - i..a.eq - i];
    assert t[b.q..b.eq] == t[j..][b.q - j..b.eq - j];
  }

  lemma {:induction false} OneMoreSame(s: string, a: seq<Redirection<Word>>, x: Redirection<Word>,
      t: string, b: seq<Redirection<Word>>, y: Redirection<Word>)
    requires SameRedirs(s, a, t, b) && SameRedir(s, x, t, y)
    ensures SameRedirs(s, a + [x], t, b + [y])
  {
    hide SameRedir;
  }

  lemma {:induction false} RedirsAligned(s: string, i: nat, t: string, j: nat, a: seq<Redirection<Word>>,
      b: seq<Redirection<Word>>)
    requires Aligned(s, i, t, j) && SameRedirs(s, a, t, b)
    ensures SameResult(s, i, ParseRedirs(s, i, a), t, j, ParseRedirs(t, j, b))
    decreases |s| - i
  {
    hide ParseRedirs, GetToken, SkipSpace, Aligned, SameRedirs, Peek;
    AlignedBound(s, i, t, j);
    RedirsUnfold(s, i, a);
    RedirsUnfold(t, j, b);
    PeekAligned(s, i, t, j);
    TokenAligned(s, i, t, j);
    if Peek(s, i, "<>") {
      var op, oq := GetToken(s, i), GetToken(t, j);
      AlignedOn(s, i, t, j, op.next - i);
      TokenAligned(s, op.next, t, oq.next);
      var f, g := GetToken(s, op.next), GetToken(t, oq.next);
      if f.kind == 'a' {
        SameFile(s, op.next, t, oq.next);
        AlignedOn(s, op.next, t, oq.next, f.next - op.next);
        OneMoreSame(s, a, Redirection(f.word, op.kind == '<'), t, b, Redirection(g.word, oq.kind == '<'));
        RedirsAligned(s, f.next, t, g.next, a + [Redirection(f.word, op.kind == '<')], b + [Redirection(g.word, oq.kind == '<')]);
      }
    } else {
      SkipAligned(s, i, t, j);
    }
  }

  lemma {:induction false} SameFile(s: string, i: nat, t: string, j: nat)
    requires Aligned(s, i, t, j) && GetToken(s, i).kind == 'a' && SameToken(GetToken(s, i), i, GetToken(t, j), j)
    ensures var a, b := GetToken(s, i).word, GetToken(t, j).word;
      a.q <= a.eq <= |s| && b.q <= b.eq <= |t| && s[a.q..a.eq] == t[b.q..b.eq]
  {
    var a, b := GetToken(s, i).word, GetToken(t, j).word;
    assert IsWord(s, a) && i <= a.q;
    SameWord(s, i, t, j, a, b);
  }

  lemma {:induction false} PeekAligned(s: string, i: nat, t: string, j: nat)
    requires Aligned(s, i, t, j)
    ensures Peek(s, i, "<>") == Peek(t, j, "<>")
  {
    hide SkipSpace, Aligned;
    SkipAligned(s, i, t, j);
    AlignedOn(s, i, t, j, SkipSpace(s, i) - i);
  }

  /**
    A line with ">>" at pos, and the line with one of the two characters taken out: the redirections are
    the same, or the shell panics on both, and the cursor differs by that character.
   */
  lemma {:induction false} AppendIsOutput(s: string, pos: nat, t: string)
    requires pos + 1 < |s| && s[pos] == '>' && s[pos + 1] == '>' && t == s[..pos] + s[pos + 1..]
    requires pos + 2 < |s| ==> s[pos + 2] != '>'
    ensures GetToken(s, pos).kind == '+' && GetToken(t, pos).kind == '>'
    ensures SameResult(s, pos + 1, ParseRedirs(s, pos, []), t, pos, ParseRedirs(t, pos, []))
  {
    hide ParseRedirs, GetToken, Aligned, Peek, SameRedirs;
    assert t[pos + 1..] == s[pos + 2..];
    assert Aligned(s, pos + 2, t, pos + 1) by { FromTail(s, pos, t); }
    assert t[pos] == '>' && (pos + 1 < |t| ==> t[pos + 1] == s[pos + 2]);
    DoubleToken(s, pos);
    SingleToken(t, pos);
    SkipAligned(s, pos + 2, t, pos + 1);
    var i, j := SkipSpace(s, pos + 2), SkipSpace(t, pos + 1);
    AlignedOn(s, pos + 2, t, pos + 1, i - pos - 2);
    RedirsUnfold(s, pos, []);
    RedirsUnfold(t, pos, []);
    TokenAligned(s, i, t, j);
    var f, g := GetToken(s, i), GetToken(t, j);
    if f.kind == 'a' {
      SameFile(s, i, t, j);
      AlignedOn(s, i, t, j, f.next - i);
      NoneSame(s, t);
      OneMoreSame(s, [], Redirection(f.word, false), t, [], Redirection(g.word, false));
      RedirsAligned(s, f.next, t, g.next, [] + [Redirection(f.word, false)], [] + [Redirection(g.word, false)]);
    }
  }

  lemma {:induction false} FromTail(s: string, pos: nat, t: string)
    requires pos + 1 < |s| && t == s[..pos] + s[pos + 1..]
    ensures Aligned(s, pos + 2, t, pos + 1)
  {
  }

  lemma {:induction false} NoneSame(s: string, t: string)
    ensures SameRedirs(s, [], t, [])
  {
  }

  lemma {:induction false} DoubleToken(s: string, pos: nat)
    requires pos + 1 < |s| && s[pos] == '>' && s[pos + 1] == '>'
    ensures GetToken(s, pos).kind == '+' && GetToken(s, pos).next == SkipSpace(s, pos + 2) && Peek(s, pos, "<>")
  {
    assert SkipSpace(s, pos) == pos;
  }

  lemma {:induction false} SingleToken(s: string, pos: nat)
    requires pos < |s| && s[pos] == '>' && (pos + 1 < |s| ==> s[pos + 1] != '>')
    ensures GetToken(s, pos).kind == '>' && GetToken(s, pos).next == SkipSpace(s, pos + 1) && Peek(s, pos, "<>")
  {
    assert SkipSpace(s, pos) == pos;
  }
}
