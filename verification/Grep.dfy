/**
  grep's regular expression matcher (grep.c) against a declarative reading of patterns: a pattern
  is a list of items, and it matches at a place if the text from there has a prefix that can be cut
  into one piece per item. Patterns and texts are C strings without their terminating NUL.
 */
module Grep {

  datatype Item =
    | Lit(c: char)
    | Any
    | Star(c: char)  // c*, or .* when c is '.'
    | End            // a final $

  /** The items of a pattern. */
  function Items(re: string): (r: seq<Item>) {
    if re == [] then []
    else if |re| >= 2 && re[1] == '*' then [Star(re[0])] + Items(re[2..])
    else if re == "$" then [End]
    else if re[0] == '.' then [Any] + Items(re[1..])
    else [Lit(re[0])] + Items(re[1..])
  }

  /** The piece of text from i to j is what the item asks for. */
  ghost predicate Fits(item: Item, text: string, i: nat, j: nat) {
    i <= j <= |text| &&
    match item
    case Lit(c) => j == i + 1 && text[i] == c
    case Any => j == i + 1
    case Star(c) => forall k :: i <= k < j ==> text[k] == c || c == '.'
    case End => i == j == |text|
  }

  /** `cuts` divides a prefix of the text into pieces that fit the items. */
  ghost predicate Divides(items: seq<Item>, text: string, cuts: seq<nat>) {
    && |cuts| == |items| + 1
    && cuts[0] == 0
    && forall i {:trigger items[i]} :: 0 <= i < |items| ==> Fits(items[i], text, cuts[i], cuts[i + 1])
  }

  ghost predicate MatchesHere(re: string, text: string) {
    exists cuts :: Divides(Items(re), text, cuts)
  }

  /** A leading ^ ties the match to the start of the text. */
  ghost predicate Matches(re: string, text: string) {
    if re != [] && re[0] == '^' then MatchesHere(re[1..], text)
    else exists k {:trigger text[k..]} :: 0 <= k <= |text| && MatchesHere(re, text[k..])
  }

  // ---------- Taking off the first item ----------

  /** The first item fits a prefix of length k and the rest of the pattern matches from there. */
  lemma {:induction false} ConsDivides(item: Item, items: seq<Item>, text: string, k: nat, cuts: seq<nat>)
    requires Fits(item, text, 0, k) && Divides(items, text[k..], cuts)
    ensures Divides([item] + items, text, [0] + Shift(cuts, k))
  {
    var all, cs := [item] + items, [0] + Shift(cuts, k);
    forall i {:trigger all[i]} | 0 <= i < |all|
      ensures Fits(all[i], text, cs[i], cs[i + 1])
    {
      if i > 0 {
        assert all[i] == items[i - 1];
        FitsShifted(items[i - 1], text, k, cuts[i - 1], cuts[i]);
      }
    }
  }

  function Shift(cuts: seq<nat>, k: nat): (r: seq<nat>)
    ensures |r| == |cuts| && forall i :: 0 <= i < |cuts| ==> r[i] == cuts[i] + k
  {
    seq(|cuts|, i requires 0 <= i < |cuts| => cuts[i] + k)
  }

  lemma {:induction false} FitsShifted(item: Item, text: string, k: nat, i: nat, j: nat)
    requires k <= |text|
    ensures Fits(item, text[k..], i, j) <==> Fits(item, text, i + k, j + k)
  {
    if item.Star? && i <= j && j + k <= |text| {
      if Fits(item, text, i + k, j + k) {
        forall m | i <= m < j
          ensures text[k..][m] == item.c || item.c == '.'
        {
          assert text[k..][m] == text[m + k];
        }
      }
      if Fits(item, text[k..], i, j) {
        forall m | i + k <= m < j + k
          ensures text[m] == item.c || item.c == '.'
        {
          assert text[m] == text[k..][m - k];
        }
      }
    }
  }

  /** A division splits into its first piece and a division of the rest. */
  lemma {:induction false} TailDivides(items: seq<Item>, text: string, cuts: seq<nat>) returns (rest: seq<nat>)
    requires items != [] && Divides(items, text, cuts)
    ensures Fits(items[0], text, 0, cuts[1])
    ensures Divides(items[1..], text[cuts[1]..], rest)
  {
    var k := cuts[1];
    assert Fits(items[0], text, cuts[0], cuts[1]);
    CutsAbove(items, text, cuts, |items|);
    rest := seq(|items|, i requires 0 <= i < |items| => cuts[i + 1] - k);
    forall i {:trigger items[1..][i]} | 0 <= i < |items[1..]|
      ensures Fits(items[1..][i], text[k..], rest[i], rest[i + 1])
    {
      assert items[1..][i] == items[i + 1];
      FitsShifted(items[i + 1], text, k, rest[i], rest[i + 1]);
    }
  }

  lemma {:induction false} CutsAbove(items: seq<Item>, text: string, cuts: seq<nat>, n: nat)
    requires Divides(items, text, cuts) && 1 <= n <= |items|
    ensures forall i :: 1 <= i <= n ==> cuts[1] <= cuts[i]
  {
    if n > 1 {
      CutsAbove(items, text, cuts, n - 1);
      assert Fits(items[n - 1], text, cuts[n - 1], cuts[n]);
    }
  }

  /** The item list splits at the front of a text. */
  ghost predicate StarsThen(c: char, re: string, text: string, k: nat) {
    k <= |text| && Fits(Star(c), text, 0, k) && MatchesHere(re, text[k..])
  }

  lemma {:induction false} MatchesStar(re: string, text: string)
    requires |re| >= 2 && re[1] == '*'
    ensures MatchesHere(re, text) <==> exists k: nat :: StarsThen(re[0], re[2..], text, k)
  {
    var items := Items(re);
    assert items == [Star(re[0])] + Items(re[2..]);
    if MatchesHere(re, text) {
      var cuts :| Divides(items, text, cuts);
      var rest := TailDivides(items, text, cuts);
      assert items[1..] == Items(re[2..]);
      assert StarsThen(re[0], re[2..], text, cuts[1]);
    }
    if k: nat :| StarsThen(re[0], re[2..], text, k) {
      var cuts :| Divides(Items(re[2..]), text[k..], cuts);
      ConsDivides(Star(re[0]), Items(re[2..]), text, k, cuts);
    }
  }

  /** A pattern that starts with a literal or a dot. */
  lemma {:induction false} MatchesOne(re: string, text: string)
    requires re != [] && !(|re| >= 2 && re[1] == '*') && re != "$"
    ensures MatchesHere(re, text) <==>
      text != [] && (re[0] == '.' || re[0] == text[0]) && MatchesHere(re[1..], text[1..])
  {
    var items := Items(re);
    var item := if re[0] == '.' then Any else Lit(re[0]);
    assert items == [item] + Items(re[1..]);
    if MatchesHere(re, text) {
      var cuts :| Divides(items, text, cuts);
      var rest := TailDivides(items, text, cuts);
      assert items[1..] == Items(re[1..]);
    }
    if text != [] && (re[0] == '.' || re[0] == text[0]) && MatchesHere(re[1..], text[1..]) {
      var cuts :| Divides(Items(re[1..]), text[1..], cuts);
      ConsDivides(item, Items(re[1..]), text, 1, cuts);
    }
  }

  lemma {:induction false} MatchesEmptyOrEnd(re: string, text: string)
    requires re == [] || re == "$"
    ensures MatchesHere(re, text) <==> re == [] || text == []
  {
    if re == [] {
      assert Divides(Items(re), text, [0]);
    } else {
      assert Items(re) == [End];
      if MatchesHere(re, text) {
        var cuts :| Divides(Items(re), text, cuts);
        assert Fits(Items(re)[0], text, cuts[0], cuts[1]);
      }
      if text == [] {
        assert Divides([End], text, [0, 0]);
      }
    }
  }

  // ---------- The matcher ----------

  /** matchhere: the pattern matches at the beginning of the text. */
  method MatchHere(re: string, text: string) returns (r: bool)
    ensures r <==> MatchesHere(re, text)
    decreases |re|, 0
  {
    hide MatchesHere;
    if re == [] {
      MatchesEmptyOrEnd(re, text);
      return true;
    }
    if |re| >= 2 && re[1] == '*' {
      MatchesStar(re, text);
      r := MatchStar(re[0], re[2..], text);
      return;
    }
    if re[0] == '$' && |re| == 1 {
      assert re == "$";
      MatchesEmptyOrEnd(re, text);
      return text == [];
    }
    MatchesOne(re, text);
    if text != [] && (re[0] == '.' || re[0] == text[0]) {
      r := MatchHere(re[1..], text[1..]);
      return;
    }
    return false;
  }

  /** matchstar: c*re matches at the beginning of the text. */
  method MatchStar(c: char, re: string, text: string) returns (r: bool)
    ensures r <==> exists k: nat :: StarsThen(c, re, text, k)
    decreases |re|, 1
  {
    hide MatchesHere;
    var p := 0;
    while true
      invariant 0 <= p <= |text| && Fits(Star(c), text, 0, p)
      invariant forall k: nat :: k < p ==> !StarsThen(c, re, text, k)
      decreases |text| - p
    {
      var here := MatchHere(re, text[p..]);
      if here {
        assert StarsThen(c, re, text, p);
        return true;
      }
      assert !StarsThen(c, re, text, p);
      if p == |text| || !(text[p] == c || c == '.') {
        break;
      }
      p := p + 1;
    }
    assert forall k: nat :: k > p ==> !Fits(Star(c), text, 0, k);
    return false;
  }

  /** match: the pattern matches somewhere, the empty end of the text included. */
  method Match(re: string, text: string) returns (r: bool)
    ensures r <==> Matches(re, text)
  {
    hide MatchesHere;
    if re != [] && re[0] == '^' {
      r := MatchHere(re[1..], text);
      return;
    }
    var p := 0;
    while true
      invariant 0 <= p <= |text|
      invariant forall k {:trigger text[k..]} :: 0 <= k < p ==> !MatchesHere(re, text[k..])
      decreases |text| - p
    {
      var here := MatchHere(re, text[p..]);
      if here {
        return true;
      }
      if p == |text| {
        break;
      }
      p := p + 1;
    }
    return false;
  }
}
