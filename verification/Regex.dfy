/**
 The part of Python's regular expressions that the path-filter translation needs, on its own terms:
 a parser from pattern text to syntax, and what a parsed pattern matches.

 The parser knows literal characters and their escapes, the dot, a negated class of one
 character, groups without a capture, the end of the text, and the repetitions `*` and `?`. It
 refuses everything else, so that a text it accepts means what it means to `re`. A match is a
 relation between a pattern and a stretch of the text; how a matcher would find it, and which
 of several it would prefer, plays no part.
 */
module Regex {
  import opened Wrappers

  datatype Re =
    | Chr(c: char)
    | Dot
    | NotChr(c: char)
    | End
    | Group(items: seq<Re>)
    | Star(r: Re)
    | Opt(r: Re)

  /** Characters that do not stand for themselves when they are not escaped. */
  predicate IsMeta(c: char) {
    c in ".^$*+?{[\\|()"
  }

  predicate IsAsciiAlnum(c: char) {
    'a' <= c <= 'z' || 'A' <= c <= 'Z' || '0' <= c <= '9'
  }

  predicate IsQuantifier(c: char) {
    c in "*+?{"
  }

  /** One atom off the front of `t`, and the text behind it. None for what the parser does not know. */
  function ParseAtom(t: string): (r: Option<(Re, string)>)
    ensures r.Some? ==> |r.value.1| < |t|
    decreases |t|, 0
  {
    if t == "" then None
    else if t[0] == '.' then Some((Dot, t[1..]))
    else if t[0] == '\\' then
      if |t| < 2 then None
      else if t[1] == 'Z' then Some((End, t[2..]))
      else if IsAsciiAlnum(t[1]) then None
      else Some((Chr(t[1]), t[2..]))
    else if t[0] == '[' then
      if |t| >= 4 && t[1] == '^' && t[2] !in "]\\[-" && t[3] == ']' then Some((NotChr(t[2]), t[4..])) else None
    else if t[0] == '(' then
      if |t| < 3 || t[1] != '?' || t[2] != ':' then None
      else
        match ParseItems(t[3..])
        case None => None
        case Some(g) => if g.1 != "" && g.1[0] == ')' then Some((Group(g.0), g.1[1..])) else None
    else if IsMeta(t[0]) then None
    else Some((Chr(t[0]), t[1..]))
  }

  /** The repetition behind an atom, if there is one. Two quantifiers in a row are refused. */
  function ParseRepeat(atom: Re, t: string): (r: Option<(Re, string)>)
    ensures r.Some? ==> |r.value.1| <= |t|
  {
    if t == "" || !IsQuantifier(t[0]) then Some((atom, t))
    else if t[0] in "+{" || atom.End? || (|t| > 1 && IsQuantifier(t[1])) then None
    else Some((if t[0] == '*' then Star(atom) else Opt(atom), t[1..]))
  }

  /** Repeated atoms up to the end of the text or an unmatched closing parenthesis. */
  function ParseItems(t: string): (r: Option<(seq<Re>, string)>)
    ensures r.Some? ==> |r.value.1| <= |t|
    decreases |t|, 1
  {
    if t == "" || t[0] == ')' then Some(([], t))
    else
      match ParseAtom(t)
      case None => None
      case Some(a) =>
        match ParseRepeat(a.0, a.1)
        case None => None
        case Some(b) =>
          match ParseItems(b.1)
          case None => None
          case Some(rest) => Some(([b.0] + rest.0, rest.1))
  }

  /** A whole pattern, or None for one that is not in this part of the syntax. */
  function Parse(text: string): Option<seq<Re>> {
    match ParseItems(text)
    case None => None
    case Some(r) => if r.1 == "" then Some(r.0) else None
  }

  /** `r` can match exactly the characters of `s` from `i` up to `j`. */
  predicate Matches(r: Re, s: string, i: nat, j: nat)
    requires i <= j <= |s|
    decreases r, j - i
  {
    match r
    case Chr(c) => j == i + 1 && s[i] == c
    case Dot => j == i + 1 && s[i] != '\n'
    case NotChr(c) => j == i + 1 && s[i] != c
    case End => i == j == |s|
    case Group(items) => MatchesAll(items, s, i, j)
    case Star(r') => i == j || exists k :: i < k <= j && Matches(r', s, i, k) && Matches(r, s, k, j)
    case Opt(r') => i == j || Matches(r', s, i, j)
  }

  predicate MatchesAll(rs: seq<Re>, s: string, i: nat, j: nat)
    requires i <= j <= |s|
    decreases rs, j - i
  {
    if rs == [] then i == j
    else exists k :: i <= k <= j && Matches(rs[0], s, i, k) && MatchesAll(rs[1..], s, k, j)
  }

  /** `re.compile(text).match(s)` finds a match: one that starts at the front of `s`. */
  predicate Match(text: string, s: string) {
    var p := Parse(text);
    p.Some? && exists j :: 0 <= j <= |s| && MatchesAll(p.value, s, 0, j)
  }

  /** The characters that a pattern for one character matches. */
  predicate Accepts(r: Re, c: char)
    requires r.Dot? || r.NotChr?
  {
    if r.Dot? then c != '\n' else c != r.c
  }

  /** A repeated single-character pattern matches the stretches all of whose characters it accepts. */
  lemma {:induction false} StarOfOne(r: Re, s: string, i: nat, j: nat)
    requires r.Dot? || r.NotChr?
    requires i <= j <= |s|
    ensures Matches(Star(r), s, i, j) <==> forall x :: i <= x < j ==> Accepts(r, s[x])
    decreases j - i
  {
    if i < j {
      StarOfOne(r, s, i + 1, j);
      assert Matches(r, s, i, i + 1) <==> Accepts(r, s[i]);
      assert forall k :: i < k <= j && Matches(r, s, i, k) ==> k == i + 1;
      assert Matches(Star(r), s, i, j)
        <==> exists k :: i < k <= j && Matches(r, s, i, k) && Matches(Star(r), s, k, j);
    }
  }

  lemma AllOfNone(s: string, i: nat, j: nat)
    requires i <= j <= |s|
    ensures MatchesAll([], s, i, j) <==> i == j
  {
  }

  lemma SplitAll(rs: seq<Re>, s: string, i: nat, j: nat) returns (k: nat)
    requires i <= j <= |s| && rs != []
    requires MatchesAll(rs, s, i, j)
    ensures i <= k <= j && Matches(rs[0], s, i, k) && MatchesAll(rs[1..], s, k, j)
  {
    k :| i <= k <= j && Matches(rs[0], s, i, k) && MatchesAll(rs[1..], s, k, j);
  }

  lemma JoinAll(rs: seq<Re>, s: string, i: nat, k: nat, j: nat)
    requires i <= k <= j <= |s| && rs != []
    requires Matches(rs[0], s, i, k) && MatchesAll(rs[1..], s, k, j)
    ensures MatchesAll(rs, s, i, j)
  {
  }

  lemma AllOfCons(r: Re, rs: seq<Re>, s: string, i: nat, j: nat)
    requires i <= j <= |s|
    ensures MatchesAll([r] + rs, s, i, j) <==> exists k :: i <= k <= j && Matches(r, s, i, k) && MatchesAll(rs, s, k, j)
  {
    var all := [r] + rs;
    assert all[0] == r && all[1..] == rs;
    hide MatchesAll, Matches;
    if MatchesAll(all, s, i, j) {
      var k := SplitAll(all, s, i, j);
      assert i <= k <= j && Matches(r, s, i, k) && MatchesAll(rs, s, k, j);
    } else if k :| i <= k <= j && Matches(r, s, i, k) && MatchesAll(rs, s, k, j) {
      JoinAll(all, s, i, k, j);
    }
  }

  lemma MatchesTwo(a: Re, b: Re, s: string, i: nat, j: nat)
    requires i <= j <= |s|
    ensures MatchesAll([a, b], s, i, j)
       <==> exists k :: i <= k <= j && Matches(a, s, i, k) && Matches(b, s, k, j)
  {
    assert [a, b] == [a] + [b];
    AllOfCons(a, [b], s, i, j);
    forall k | i <= k <= j
      ensures MatchesAll([b], s, k, j) <==> Matches(b, s, k, j)
    {
      assert [b] == [b] + [];
      AllOfCons(b, [], s, k, j);
      forall l | k <= l <= j { AllOfNone(s, l, j); }
    }
  }
}
