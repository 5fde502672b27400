/** src/grep.c: the regular expression matcher. A `char*` is the string from there on,
    without the final NUL. */
module Grep {
  /** What a regular expression stands for, after an initial '^'. */
  datatype Pattern = Done | End | One(c: char, rest: Pattern) | Star(c: char, rest: Pattern)

  /** '*' repeats the character before it, whatever that is; '$' is special at the very
      end only; everything else, a '*' with nothing to repeat and a later '^' too,
      stands for itself or, if '.', for any character. */
  function Parse(re: string): Pattern {
    if re == "" then Done
    else if |re| > 1 && re[1] == '*' then Star(re[0], Parse(re[2..]))
    else if re == "$" then End
    else One(re[0], Parse(re[1..]))
  }

  /** A pattern as it is written. */
  function Written(p: Pattern): string {
    match p
    case Done => ""
    case End => "$"
    case One(c, q) => [c] + Written(q)
    case Star(c, q) => [c, '*'] + Written(q)
  }

  /** A pattern that can be written: a '*' that stands for itself comes first or after a
      repetition, and a '$' that does is not the last. */
  predicate Writable(p: Pattern) {
    match p
    case Done => true
    case End => true
    case One(c, q) => Writable(q) && !(c == '$' && q.Done?) && !((q.One? || q.Star?) && q.c == '*')
    case Star(_, q) => Writable(q)
  }

  /** So Parse gives every string the one pattern that is written so, and every pattern that
      can be written is what its string stands for. */
  lemma {:induction false} ParseWritten(p: Pattern)
    requires Writable(p)
    ensures Parse(Written(p)) == p
  {
    match p
    case Done =>
    case End =>
    case One(c, q) =>
      ParseWritten(q);
      var w := Written(q);
      assert Written(p)[0] == c && Written(p)[1..] == w;
      assert |Written(p)| > 1 ==> Written(p)[1] == w[0];
    case Star(c, q) =>
      ParseWritten(q);
      assert Written(p)[2..] == Written(q);
  }

  lemma {:induction false} WrittenParse(re: string)
    ensures Written(Parse(re)) == re && Writable(Parse(re))
    decreases |re|
  {
    if re == "" {
    } else if |re| > 1 && re[1] == '*' {
      WrittenParse(re[2..]);
      assert re == [re[0], '*'] + re[2..];
    } else if re != "$" {
      WrittenParse(re[1..]);
      assert re == [re[0]] + re[1..];
    }
  }

  predicate Fits(c: char, x: char) {
    c == '.' || c == x
  }

  predicate AllFit(c: char, u: string) {
    forall i | 0 <= i < |u| :: Fits(c, u[i])
  }

  /** `p` can stand for `u`, if `v` follows. */
  ghost predicate Spells(p: Pattern, u: string, v: string) {
    match p
    case Done => u == ""
    case End => u == "" && v == ""
    case One(c, q) => u != "" && Fits(c, u[0]) && Spells(q, u[1..], v)
    case Star(c, q) => exists k :: 0 <= k <= |u| && AllFit(c, u[..k]) && Spells(q, u[k..], v)
  }

  /** `p` matches the first `n` characters of `t`. */
  ghost predicate MatchesTo(p: Pattern, t: string, n: nat)
    requires n <= |t|
  {
    Spells(p, t[..n], t[n..])
  }

  /** `p` matches at the beginning of `t`. */
  ghost predicate Matches(p: Pattern, t: string) {
    exists n: nat :: n <= |t| && MatchesTo(p, t, n)
  }

  /** Where `q` matches `n` characters from `k` on, `p` with the `k` before matches `k + n`. */
  lemma Pieces(t: string, k: nat, n: nat)
    requires k + n <= |t|
    ensures t[..k + n][..k] == t[..k] && t[..k + n][k..] == t[k..][..n] && t[k + n..] == t[k..][n..]
  {}

  lemma OneMatchesTo(c: char, q: Pattern, t: string, n: nat)
    requires n < |t|
    ensures MatchesTo(One(c, q), t, n + 1) <==> Fits(c, t[0]) && MatchesTo(q, t[1..], n)
  {
    Pieces(t, 1, n);
  }

  lemma OneMatches(c: char, q: Pattern, t: string)
    ensures Matches(One(c, q), t) <==> t != "" && (c == '.' || c == t[0]) && Matches(q, t[1..])
  {
    if Matches(One(c, q), t) {
      var n: nat :| n <= |t| && MatchesTo(One(c, q), t, n);
      OneMatchesTo(c, q, t, n - 1);
      hide MatchesTo, Spells;
    }
    if t != "" && Fits(c, t[0]) && Matches(q, t[1..]) {
      var n: nat :| n <= |t[1..]| && MatchesTo(q, t[1..], n);
      OneMatchesTo(c, q, t, n);
      hide MatchesTo, Spells;
    }
  }

  lemma StarMatchesTo(c: char, q: Pattern, t: string, n: nat) returns (k: nat)
    requires n <= |t| && MatchesTo(Star(c, q), t, n)
    ensures k <= n && AllFit(c, t[..k]) && MatchesTo(q, t[k..], n - k)
  {
    k :| k <= n && AllFit(c, t[..n][..k]) && Spells(q, t[..n][k..], t[n..]);
    Pieces(t, k, n - k);
  }

  lemma StarMatchesIf(c: char, q: Pattern, t: string, k: nat, n: nat)
    requires k + n <= |t| && AllFit(c, t[..k]) && MatchesTo(q, t[k..], n)
    ensures MatchesTo(Star(c, q), t, k + n)
  {
    Pieces(t, k, n);
    StarSpells(c, q, t[..k + n], t[k + n..], k);
  }

  lemma StarSpells(c: char, q: Pattern, u: string, v: string, k: nat)
    requires k <= |u| && AllFit(c, u[..k]) && Spells(q, u[k..], v)
    ensures Spells(Star(c, q), u, v)
  {}

  lemma StarMatches(c: char, q: Pattern, t: string)
    ensures Matches(Star(c, q), t) <==> exists k :: 0 <= k <= |t| && AllFit(c, t[..k]) && Matches(q, t[k..])
    ensures forall k | 0 <= k <= |t| :: AllFit(c, t[..k]) <==> forall i | 0 <= i < k :: c == '.' || c == t[i]
  {
    hide MatchesTo;
    if Matches(Star(c, q), t) {
      var n: nat :| n <= |t| && MatchesTo(Star(c, q), t, n);
      var k := StarMatchesTo(c, q, t, n);
    }
    if k: nat :| k <= |t| && AllFit(c, t[..k]) && Matches(q, t[k..]) {
      var n: nat :| n <= |t[k..]| && MatchesTo(q, t[k..], n);
      StarMatchesIf(c, q, t, k, n);
    }
  }

  lemma EndsMatch(t: string)
    ensures Matches(Done, t) && (Matches(End, t) <==> t == "")
  {
    assert MatchesTo(Done, t, 0);
    assert t == "" ==> MatchesTo(End, t, 0);
  }

  method MatchHere(re: string, text: string) returns (b: bool)
    ensures b == Matches(Parse(re), text)
    decreases |re|, 0
  {
    EndsMatch(text);
    if re == "" {
      return true;
    }
    if |re| > 1 && re[1] == '*' {
      StarMatches(re[0], Parse(re[2..]), text);
      b := MatchStar(re[0], re[2..], text);
      return;
    }
    if re == "$" {
      return text == "";
    }
    OneMatches(re[0], Parse(re[1..]), text);
    if text != "" && (re[0] == '.' || re[0] == text[0]) {
      b := MatchHere(re[1..], text[1..]);
      return;
    }
    return false;
  }

  /** `c*` and then `re`: shortest repetition first. */
  method MatchStar(c: char, re: string, text: string) returns (b: bool)
    ensures b <==> exists k :: 0 <= k <= |text| && AllFit(c, text[..k]) && Matches(Parse(re), text[k..])
    decreases |re|, 1
  {
    var k := 0;
    while true
      invariant 0 <= k <= |text| && AllFit(c, text[..k])
      invariant forall j | 0 <= j < k :: !Matches(Parse(re), text[j..])
      decreases |text| - k
    {
      var here := MatchHere(re, text[k..]);
      if here {
        return true;
      }
      if !(k < |text| && (text[k] == c || c == '.')) {
        forall j | 0 <= j <= |text| && AllFit(c, text[..j])
          ensures j <= k
        {
          assert j > k ==> Fits(c, text[..j][k]);
        }
        return false;
      }
      k := k + 1;
    }
  }

  /** What grep looks for: the pattern at some position of the text, or with an initial
      '^' at its start only. */
  ghost predicate Found(re: string, text: string) {
    if re != "" && re[0] == '^' then Matches(Parse(re[1..]), text)
    else exists j :: 0 <= j <= |text| && Matches(Parse(re), text[j..])
  }

  method Match(re: string, text: string) returns (b: bool)
    ensures b == Found(re, text)
    ensures re != "" && re[0] == '^' ==> b == Matches(Parse(re[1..]), text)
    ensures re == "" || re[0] != '^' ==> (b <==> exists j :: 0 <= j <= |text| && Matches(Parse(re), text[j..]))
  {
    if re != "" && re[0] == '^' {
      b := MatchHere(re[1..], text);
      return;
    }
    var j := 0;
    while j <= |text|
      invariant 0 <= j <= |text| + 1 && forall i | 0 <= i < j :: !Matches(Parse(re), text[i..])
    {
      var here := MatchHere(re, text[j..]);
      if here {
        return true;
      }
      j := j + 1;
    }
    return false;
  }
}
