/**
 GitHub path filters, and their translation to regular expressions by `glob_to_regex`. The meaning
 of a filter is given directly on its characters; the meaning of the translation is that of the
 regular expression its text parses as.
 */
module PathGlob {
  import opened Wrappers
  import opened Text
  import opened Regex

  predicate SlashFree(s: string) {
    '/' !in s
  }

  /**
   What a filter admits: `**` and a slash stand for nothing or for anything that ends in a slash,
   `**` for anything, `*` for a run without a slash, `?` for one character that is no slash, and
   any other character for itself.
   */
  predicate GlobMatch(p: string, f: string)
    decreases |p|
  {
    if p == "" then f == ""
    else if StartsWith(p, "**/") then
      GlobMatch(p[3..], f) || exists k :: 0 < k <= |f| && f[k - 1] == '/' && GlobMatch(p[3..], f[k..])
    else if StartsWith(p, "**") then exists k :: 0 <= k <= |f| && GlobMatch(p[2..], f[k..])
    else if p[0] == '*' then exists k :: 0 <= k <= |f| && SlashFree(f[..k]) && GlobMatch(p[1..], f[k..])
    else if p[0] == '?' then f != "" && f[0] != '/' && GlobMatch(p[1..], f[1..])
    else f != "" && f[0] == p[0] && GlobMatch(p[1..], f[1..])
  }

  // ----- the translation -----

  datatype Token = AnyDirs | AnyPath | AnyName | OneChar | Literal(c: char)

  /** The token the scan chooses at the front of `p`, and how much of `p` it takes. */
  function FirstToken(p: string): (r: (Token, nat))
    requires p != ""
    ensures 0 < r.1 <= |p|
    ensures Source(r.0) == p[..r.1]
  {
    if StartsWith(p, "**/") then (AnyDirs, 3)
    else if StartsWith(p, "**") then (AnyPath, 2)
    else if p[0] == '*' then (AnyName, 1)
    else if p[0] == '?' then (OneChar, 1)
    else (Literal(p[0]), 1)
  }

  function Tokenize(p: string): seq<Token>
    decreases |p|
  {
    if p == "" then [] else [FirstToken(p).0] + Tokenize(p[FirstToken(p).1..])
  }

  /** The filter text a token was read from. */
  function Source(t: Token): string {
    match t
    case AnyDirs => "**/"
    case AnyPath => "**"
    case AnyName => "*"
    case OneChar => "?"
    case Literal(c) => [c]
  }

  /** `re.escape` of one character. */
  function Escape(c: char): string {
    if c in "()[]{}?*+-|^$\\.&~# \t\n\r\U{b}\U{c}" then ['\\', c] else [c]
  }

  function Emit(t: Token): string {
    match t
    case AnyDirs => "(?:.*/)?"
    case AnyPath => ".*"
    case AnyName => "[^/]*"
    case OneChar => "[^/]"
    case Literal(c) => Escape(c)
  }

  function Emits(ts: seq<Token>): seq<string> {
    seq(|ts|, i requires 0 <= i < |ts| => Emit(ts[i]))
  }

  const END_OF_TEXT := "\\Z"

  function RegexOf(p: string): string {
    Concat(Emits(Tokenize(p))) + END_OF_TEXT
  }

  method GlobToRegex(pattern: string) returns (text: string)
    ensures text == RegexOf(pattern)
  {
    var out: seq<string> := [];
    var i := 0;
    assert pattern[0..] == pattern;
    while i < |pattern|
      invariant 0 <= i <= |pattern|
      invariant Emits(Tokenize(pattern)) == out + Emits(Tokenize(pattern[i..]))
    {
      EmitsNext(pattern[i..]);
      var c := pattern[i];
      ghost var was, from := out, i;
      if At(pattern, "**/", i) {
        out := out + ["(?:.*/)?"];
        i := i + 3;
      } else if At(pattern, "**", i) {
        out := out + [".*"];
        i := i + 2;
      } else if c == '*' {
        out := out + ["[^/]*"];
        i := i + 1;
      } else if c == '?' {
        out := out + ["[^/]"];
        i := i + 1;
      } else {
        out := out + [Escape(c)];
        i := i + 1;
      }
      AtSuffix(pattern, "**/", from);
      AtSuffix(pattern, "**", from);
      assert pattern[i..] == pattern[from..][i - from..];
      Associative(was, [Emit(FirstToken(pattern[from..]).0)], Emits(Tokenize(pattern[i..])));
    }
    assert out + [] == out;
    return Concat(out) + "\\Z";
  }

  lemma AtSuffix(s: string, pat: string, i: nat)
    requires i <= |s|
    ensures StartsWith(s[i..], pat) <==> At(s, pat, i)
  {
    if i + |pat| <= |s| {
      assert s[i..][0..|pat|] == s[i..i + |pat|];
    }
  }

  lemma EmitsNext(p: string)
    requires p != ""
    ensures Emits(Tokenize(p)) == [Emit(FirstToken(p).0)] + Emits(Tokenize(p[FirstToken(p).1..]))
  {
  }

  // ----- the text parses as what was meant -----

  function Node(t: Token): Re {
    match t
    case AnyDirs => Opt(Group([Star(Dot), Chr('/')]))
    case AnyPath => Star(Dot)
    case AnyName => Star(NotChr('/'))
    case OneChar => NotChr('/')
    case Literal(c) => Chr(c)
  }

  function Nodes(ts: seq<Token>): seq<Re> {
    if ts == [] then [] else [Node(ts[0])] + Nodes(ts[1..])
  }

  function ConsItem(item: Re, rest: Option<(seq<Re>, string)>): Option<(seq<Re>, string)> {
    match rest
    case None => None
    case Some(r) => Some(([item] + r.0, r.1))
  }

  /** One atom with what repeats it, cut off the front. */
  lemma ItemParses(t: string, atom: Re, behind: string, item: Re, rest: string)
    requires t != "" && t[0] != ')'
    requires ParseAtom(t) == Some((atom, behind)) && ParseRepeat(atom, behind) == Some((item, rest))
    ensures ParseItems(t) == ConsItem(item, ParseItems(rest))
  {
  }

  predicate Unquantified(rest: string) {
    rest == "" || !IsQuantifier(rest[0])
  }

  lemma RepeatParses(atom: Re, rest: string)
    requires !atom.End? && Unquantified(rest)
    ensures ParseRepeat(atom, "*" + rest) == Some((Star(atom), rest))
    ensures ParseRepeat(atom, "?" + rest) == Some((Opt(atom), rest))
    ensures ParseRepeat(atom, rest) == Some((atom, rest))
  {
    assert ("*" + rest)[1..] == rest && ("?" + rest)[1..] == rest;
  }

  lemma AtomParses(rest: string)
    ensures ParseAtom("." + rest) == Some((Dot, rest))
    ensures ParseAtom("/" + rest) == Some((Chr('/'), rest))
    ensures ParseAtom("[^/]" + rest) == Some((NotChr('/'), rest))
  {
    assert ("." + rest)[1..] == rest && ("/" + rest)[1..] == rest;
    assert ("[^/]" + rest)[4..] == rest;
  }

  lemma EscapedText(c: char, rest: string)
    ensures var text := Escape(c) + rest;
            && (Escape(c) == [c] ==> !IsMeta(c) && c != ')' && text[0] == c && text[1..] == rest)
            && (Escape(c) != [c] ==> !IsAsciiAlnum(c) && |text| >= 2 && text[0] == '\\' && text[1] == c && text[2..] == rest)
  {
    var text := Escape(c) + rest;
    assert text[|Escape(c)|..] == rest;
  }

  lemma LiteralParses(c: char, rest: string)
    ensures var text := Emit(Literal(c)) + rest;
            text != "" && text[0] != ')' && ParseAtom(text) == Some((Chr(c), rest))
  {
    var text := Escape(c) + rest;
    EscapedText(c, rest);
    hide Escape;
  }

  /** A one-character atom with a star behind it. */
  lemma StarredParses(t: string, atom: Re, rest: string)
    requires t != "" && t[0] != ')' && !atom.End? && Unquantified(rest)
    requires ParseAtom(t) == Some((atom, "*" + rest))
    ensures ParseItems(t) == ConsItem(Star(atom), ParseItems(rest))
  {
    hide *;
    RepeatParses(atom, rest);
    ItemParses(t, atom, "*" + rest, Star(atom), rest);
  }

  lemma PlainParses(t: string, atom: Re, rest: string)
    requires t != "" && t[0] != ')' && !atom.End? && Unquantified(rest)
    requires ParseAtom(t) == Some((atom, rest))
    ensures ParseItems(t) == ConsItem(atom, ParseItems(rest))
  {
    hide *;
    RepeatParses(atom, rest);
    ItemParses(t, atom, rest, atom, rest);
  }

  lemma InsideTexts(rest: string)
    ensures ".*/)" + rest == "." + ("*" + ("/" + (")" + rest)))
    ensures Unquantified("/" + (")" + rest)) && Unquantified(")" + rest)
    ensures ParseItems(")" + rest) == Some(([], ")" + rest))
  {
    assert ".*/)" == "." + "*" + "/" + ")";
  }

  lemma InsideParses(rest: string)
    ensures ParseItems(".*/)" + rest) == Some(([Star(Dot), Chr('/')], ")" + rest))
  {
    hide ParseAtom, ParseRepeat, ParseItems, Unquantified;
    var t3 := ")" + rest;
    var t2 := "/" + t3;
    InsideTexts(rest);
    AtomParses("*" + t2);
    AtomParses(t3);
    StarredParses("." + ("*" + t2), Dot, t2);
    PlainParses(t2, Chr('/'), t3);
    assert [Chr('/')] + [] == [Chr('/')] && [Star(Dot)] + [Chr('/')] == [Star(Dot), Chr('/')];
  }

  lemma GroupParses(rest: string)
    ensures ParseAtom("(?:.*/)" + rest) == Some((Group([Star(Dot), Chr('/')]), rest))
  {
    InsideParses(rest);
    hide ParseItems;
    var text := "(?:.*/)" + rest;
    assert text[3..] == ".*/)" + rest && (")" + rest)[1..] == rest;
  }

  lemma EmittedTexts(rest: string)
    ensures Emit(AnyDirs) + rest == "(?:.*/)" + ("?" + rest)
    ensures Emit(AnyPath) + rest == "." + ("*" + rest)
    ensures Emit(AnyName) + rest == "[^/]" + ("*" + rest)
    ensures Emit(OneChar) + rest == "[^/]" + rest
  {
    assert "(?:.*/)?" == "(?:.*/)" + "?" && ".*" == "." + "*" && "[^/]*" == "[^/]" + "*";
  }

  lemma AnyDirsParses(rest: string)
    requires Unquantified(rest)
    ensures ParseItems("(?:.*/)" + ("?" + rest)) == ConsItem(Node(AnyDirs), ParseItems(rest))
  {
    GroupParses("?" + rest);
    hide ParseAtom, ParseRepeat, ParseItems, Unquantified;
    var group := Group([Star(Dot), Chr('/')]);
    RepeatParses(group, rest);
    ItemParses("(?:.*/)" + ("?" + rest), group, "?" + rest, Opt(group), rest);
  }

  lemma TokenParses(t: Token, rest: string)
    requires Unquantified(rest)
    ensures ParseItems(Emit(t) + rest) == ConsItem(Node(t), ParseItems(rest))
  {
    hide ParseAtom, ParseRepeat, ParseItems, Unquantified, Emit;
    EmittedTexts(rest);
    AtomParses("*" + rest);
    AtomParses(rest);
    match t
    case AnyDirs => AnyDirsParses(rest);
    case AnyPath => StarredParses("." + ("*" + rest), Dot, rest);
    case AnyName => StarredParses("[^/]" + ("*" + rest), NotChr('/'), rest);
    case OneChar => PlainParses("[^/]" + rest, NotChr('/'), rest);
    case Literal(c) =>
      LiteralParses(c, rest);
      PlainParses(Emit(t) + rest, Chr(c), rest);
  }

  lemma EmitFollows(t: Token, rest: string)
    ensures Unquantified(Emit(t) + rest)
  {
  }

  lemma EndParses()
    ensures Unquantified(END_OF_TEXT) && ParseItems(END_OF_TEXT) == Some(([End], ""))
  {
    assert END_OF_TEXT[2..] == "";
    ItemParses(END_OF_TEXT, End, "", End, "");
    assert ParseItems("") == Some(([], ""));
    assert [End] + [] == [End];
  }

  lemma {:induction false} EmittedParses(ts: seq<Token>)
    ensures var text := Concat(Emits(ts)) + END_OF_TEXT;
            Unquantified(text) && ParseItems(text) == Some((Nodes(ts) + [End], ""))
  {
    EndParses();
    hide ParseItems, Unquantified, Emit;
    if ts == [] {
      assert Concat(Emits(ts)) + END_OF_TEXT == END_OF_TEXT;
      assert Nodes(ts) + [End] == [End];
    } else {
      EmittedParses(ts[1..]);
      var rest := Concat(Emits(ts[1..])) + END_OF_TEXT;
      assert Emits(ts)[1..] == Emits(ts[1..]);
      Associative(Emit(ts[0]), Concat(Emits(ts[1..])), END_OF_TEXT);
      TokenParses(ts[0], rest);
      EmitFollows(ts[0], rest);
      Associative([Node(ts[0])], Nodes(ts[1..]), [End]);
    }
  }

  /** The emitted text is a regular expression, and it parses as exactly the tokens of the scan. */
  lemma RegexParses(p: string)
    ensures Parse(RegexOf(p)) == Some(Nodes(Tokenize(p)) + [End])
  {
    EmittedParses(Tokenize(p));
  }

  function Sources(ts: seq<Token>): string {
    if ts == [] then "" else Source(ts[0]) + Sources(ts[1..])
  }

  /** The scan takes the whole filter: its tokens spell it out again. */
  lemma {:induction false} SourcesOfTokens(p: string)
    ensures Sources(Tokenize(p)) == p
    decreases |p|
  {
    if p != "" {
      var n := FirstToken(p).1;
      SourcesOfTokens(p[n..]);
      assert p == p[..n] + p[n..];
      assert Tokenize(p)[1..] == Tokenize(p[n..]);
    }
  }

  lemma {:induction false} NodesInjective(a: seq<Token>, b: seq<Token>)
    requires Nodes(a) + [End] == Nodes(b) + [End]
    ensures a == b
  {
    NodesLength(a);
    NodesLength(b);
    assert |Nodes(a) + [End]| == |Nodes(b) + [End]|;
    if a != [] {
      assert (Nodes(a) + [End])[0] == Node(a[0]) && (Nodes(b) + [End])[0] == Node(b[0]);
      assert (Nodes(a) + [End])[1..] == Nodes(a[1..]) + [End] && (Nodes(b) + [End])[1..] == Nodes(b[1..]) + [End];
      NodesInjective(a[1..], b[1..]);
      assert a == [a[0]] + a[1..] && b == [b[0]] + b[1..];
    }
  }

  lemma {:induction false} NodesLength(ts: seq<Token>)
    ensures |Nodes(ts)| == |ts|
  {
    if ts != [] { NodesLength(ts[1..]); }
  }

  /** The emitted text says which filter it came from, whatever characters that is made of. */
  lemma RegexUnambiguous(p: string, q: string)
    requires RegexOf(p) == RegexOf(q)
    ensures p == q
  {
    RegexParses(p);
    RegexParses(q);
    hide RegexOf, Parse, Tokenize;
    NodesInjective(Tokenize(p), Tokenize(q));
    SourcesOfTokens(p);
    SourcesOfTokens(q);
  }

  // ----- what the regular expression matches -----

  predicate NewlineFree(f: string) {
    '\n' !in f
  }

  /** The stretch `f[i..k]` is one a token can stand for. */
  predicate Spans(t: Token, f: string, i: nat, k: nat)
    requires i <= k <= |f|
  {
    match t
    case AnyDirs => k == i || f[k - 1] == '/'
    case AnyPath => true
    case AnyName => SlashFree(f[i..k])
    case OneChar => k == i + 1 && f[i] != '/'
    case Literal(c) => k == i + 1 && f[i] == c
  }

  lemma DirsMatch(f: string, i: nat, k: nat)
    requires i <= k <= |f| && NewlineFree(f)
    ensures Matches(Node(AnyDirs), f, i, k) <==> Spans(AnyDirs, f, i, k)
  {
    MatchesTwo(Star(Dot), Chr('/'), f, i, k);
    if k > i && f[k - 1] == '/' {
      StarOfOne(Dot, f, i, k - 1);
      assert Matches(Star(Dot), f, i, k - 1) && Matches(Chr('/'), f, k - 1, k);
    }
    assert Matches(Opt(Group([Star(Dot), Chr('/')])), f, i, k)
      <==> i == k || MatchesAll([Star(Dot), Chr('/')], f, i, k);
  }

  lemma NodeMatches(t: Token, f: string, i: nat, k: nat)
    requires i <= k <= |f| && NewlineFree(f)
    ensures Matches(Node(t), f, i, k) <==> Spans(t, f, i, k)
  {
    match t
    case AnyDirs => DirsMatch(f, i, k);
    case AnyPath => StarOfOne(Dot, f, i, k);
    case AnyName =>
      StarOfOne(NotChr('/'), f, i, k);
      assert SlashFree(f[i..k]) <==> forall x :: i <= x < k ==> f[x] != '/' by {
        if x :| i <= x < k && f[x] == '/' { assert f[i..k][x - i] == '/'; }
      }
    case OneChar =>
    case Literal(c) =>
  }

  /** A filter admits `f[i..]` when its first token stands for a stretch and the rest admits what is behind. */
  lemma GlobFirst(p: string, f: string, i: nat)
    requires p != "" && i <= |f|
    ensures GlobMatch(p, f[i..])
       <==> exists k :: i <= k <= |f| && Spans(FirstToken(p).0, f, i, k) && GlobMatch(p[FirstToken(p).1..], f[k..])
  {
    hide GlobMatch, Spans, FirstToken;
    var t, rest := FirstToken(p).0, p[FirstToken(p).1..];
    var g := f[i..];
    if GlobMatch(p, g) {
      var k := GlobWitness(p, g);
      assert g[k..] == f[i + k..];
      SpansShift(t, f, i, i + k);
    }
    if k :| i <= k <= |f| && Spans(t, f, i, k) && GlobMatch(rest, f[k..]) {
      var m := k - i;
      assert g[m..] == f[k..];
      SpansShift(t, f, i, k);
      GlobFromWitness(p, g, m);
    }
  }

  lemma SpansShift(t: Token, f: string, i: nat, k: nat)
    requires i <= k <= |f|
    ensures Spans(t, f, i, k) <==> Spans(t, f[i..], 0, k - i)
  {
    assert f[i..][0..k - i] == f[i..k];
  }

  lemma GlobWitness(p: string, g: string) returns (k: nat)
    requires p != "" && GlobMatch(p, g)
    ensures k <= |g| && Spans(FirstToken(p).0, g, 0, k) && GlobMatch(p[FirstToken(p).1..], g[k..])
  {
    assert g[0..] == g;
    match FirstToken(p).0
    case AnyDirs =>
      if GlobMatch(p[3..], g) {
        k := 0;
      } else {
        k :| 0 < k <= |g| && g[k - 1] == '/' && GlobMatch(p[3..], g[k..]);
      }
    case AnyPath => k :| 0 <= k <= |g| && GlobMatch(p[2..], g[k..]);
    case AnyName =>
      k :| 0 <= k <= |g| && SlashFree(g[..k]) && GlobMatch(p[1..], g[k..]);
      assert g[0..k] == g[..k];
    case OneChar => k := 1;
    case Literal(_) => k := 1;
  }

  lemma GlobFromWitness(p: string, g: string, k: nat)
    requires p != "" && k <= |g|
    requires Spans(FirstToken(p).0, g, 0, k) && GlobMatch(p[FirstToken(p).1..], g[k..])
    ensures GlobMatch(p, g)
  {
    assert g[0..] == g && g[0..k] == g[..k];
  }

  lemma {:induction false} TokensMatch(p: string, f: string, i: nat, j: nat)
    requires i <= j <= |f| && NewlineFree(f)
    ensures MatchesAll(Nodes(Tokenize(p)) + [End], f, i, j) <==> j == |f| && GlobMatch(p, f[i..])
    decreases |p|
  {
    if p == "" {
      assert Nodes(Tokenize(p)) + [End] == [End] + [];
      AllOfCons(End, [], f, i, j);
      forall k | i <= k <= j { AllOfNone(f, k, j); }
      assert i == j == |f| ==> Matches(End, f, i, i) && MatchesAll([], f, i, j);
    } else {
      var rest := p[FirstToken(p).1..];
      forall k | i <= k <= j { TokensMatch(rest, f, k, j); }
      TokensMatchNext(p, f, i, j);
    }
  }

  lemma TokensMatchNext(p: string, f: string, i: nat, j: nat)
    requires p != "" && i <= j <= |f| && NewlineFree(f)
    requires var rest := p[FirstToken(p).1..];
             forall k :: i <= k <= j ==>
               (MatchesAll(Nodes(Tokenize(rest)) + [End], f, k, j) <==> j == |f| && GlobMatch(rest, f[k..]))
    ensures MatchesAll(Nodes(Tokenize(p)) + [End], f, i, j) <==> j == |f| && GlobMatch(p, f[i..])
  {
    hide *;
    var t, rest := FirstToken(p).0, p[FirstToken(p).1..];
    var later := Nodes(Tokenize(rest)) + [End];
    NodesNext(p);
    AllOfCons(Node(t), later, f, i, j);
    GlobFirst(p, f, i);
    if MatchesAll(Nodes(Tokenize(p)) + [End], f, i, j) {
      var k :| i <= k <= j && Matches(Node(t), f, i, k) && MatchesAll(later, f, k, j);
      NodeMatches(t, f, i, k);
    }
    if j == |f| && GlobMatch(p, f[i..]) {
      var k :| i <= k <= |f| && Spans(t, f, i, k) && GlobMatch(rest, f[k..]);
      NodeMatches(t, f, i, k);
      assert MatchesAll(later, f, k, j);
    }
  }

  lemma NodesNext(p: string)
    requires p != ""
    ensures Nodes(Tokenize(p)) + [End]
         == [Node(FirstToken(p).0)] + (Nodes(Tokenize(p[FirstToken(p).1..])) + [End])
  {
    var (t, n) := FirstToken(p);
    assert Tokenize(p)[1..] == Tokenize(p[n..]);
    Associative([Node(t)], Nodes(Tokenize(p[n..])), [End]);
  }

  /** The compiled filter matches exactly the newline-free paths that the filter admits. */
  lemma TranslationCorrect(p: string, f: string)
    requires NewlineFree(f)
    ensures Match(RegexOf(p), f) <==> GlobMatch(p, f)
  {
    RegexParses(p);
    assert f[0..] == f;
    var rs := Nodes(Tokenize(p)) + [End];
    if j :| 0 <= j <= |f| && MatchesAll(rs, f, 0, j) {
      TokensMatch(p, f, 0, j);
    }
    TokensMatch(p, f, 0, |f|);
    assert GlobMatch(p, f) ==> MatchesAll(rs, f, 0, |f|);
  }

  /**
   Newlines are where the translation and the filter part: a path that the two treat alike under
   every filter is one without a newline, since the dot of `**` does not match it.
   */
  lemma NewlinesDiffer(f: string)
    ensures (forall p :: Match(RegexOf(p), f) <==> GlobMatch(p, f)) <==> NewlineFree(f)
  {
    if NewlineFree(f) {
      forall p { TranslationCorrect(p, f); }
    } else {
      AnyPathMissesNewline(f);
    }
  }

  lemma AnyPathMissesNewline(f: string)
    requires !NewlineFree(f)
    ensures GlobMatch("**", f) && !Match(RegexOf("**"), f)
  {
    assert f[|f|..] == "" && GlobMatch("**"[2..], "");
    RegexParses("**");
    assert Tokenize("**") == [AnyPath] by { assert "**"[2..] == ""; }
    assert Nodes([AnyPath]) == [Star(Dot)] by { assert [AnyPath][1..] == []; }
    forall j | 0 <= j <= |f|
      ensures !MatchesAll([Star(Dot), End], f, 0, j)
    {
      MatchesTwo(Star(Dot), End, f, 0, j);
      StarOfOne(Dot, f, 0, |f|);
      forall k | 0 <= k <= j
        ensures !(Matches(Star(Dot), f, 0, k) && Matches(End, f, k, j))
      {
        if k == |f| {
          var x :| 0 <= x < |f| && f[x] == '\n';
          assert !Accepts(Dot, f[x]);
        }
      }
    }
    assert [Star(Dot)] + [End] == [Star(Dot), End];
  }

  // ----- laws of the filters -----

  function Slashes(s: string): nat {
    if s == "" then 0 else (if s[0] == '/' then 1 else 0) + Slashes(s[1..])
  }

  lemma {:induction false} SlashesAppend(a: string, b: string)
    ensures Slashes(a + b) == Slashes(a) + Slashes(b)
  {
    if a == "" {
      assert a + b == b;
    } else {
      assert (a + b)[1..] == a[1..] + b;
      SlashesAppend(a[1..], b);
    }
  }

  lemma {:induction false} SlashFreeHasNone(s: string)
    requires SlashFree(s)
    ensures Slashes(s) == 0
  {
    if s != "" { SlashFreeHasNone(s[1..]); }
  }

  ghost predicate HasDoubleStar(p: string) {
    exists i :: At(p, "**", i)
  }

  lemma DoubleStarBehind(p: string, n: nat)
    requires n <= |p| && HasDoubleStar(p[n..])
    ensures HasDoubleStar(p)
  {
    var i :| At(p[n..], "**", i);
    assert p[n + i..n + i + 2] == p[n..][i..i + 2];
    assert At(p, "**", n + i);
  }

  /** Without `**` a filter stays on its level: it admits only paths with as many slashes as it has itself. */
  lemma {:induction false} SameDepth(p: string, f: string)
    requires !HasDoubleStar(p) && GlobMatch(p, f)
    ensures Slashes(f) == Slashes(p)
    decreases |p|
  {
    if p != "" {
      assert !At(p, "**", 0);
      StarsStart(p);
      if HasDoubleStar(p[1..]) { DoubleStarBehind(p, 1); }
      if p[0] == '*' {
        var k :| 0 <= k <= |f| && SlashFree(f[..k]) && GlobMatch(p[1..], f[k..]);
        hide GlobMatch, HasDoubleStar;
        SameDepth(p[1..], f[k..]);
        SlashesAppend(f[..k], f[k..]);
        SlashFreeHasNone(f[..k]);
        assert f[..k] + f[k..] == f;
      } else {
        SameDepth(p[1..], f[1..]);
      }
    }
  }

  lemma StarsStart(p: string)
    ensures StartsWith(p, "**/") ==> StartsWith(p, "**")
    ensures StartsWith(p, "**") ==> p[0] == '*'
  {
    if StartsWith(p, "**/") { assert p[0..2] == p[0..3][..2]; }
    if StartsWith(p, "**") { assert p[0] == p[0..2][0]; }
  }

  predicate IsLiteral(s: string) {
    '*' !in s && '?' !in s
  }

  lemma {:induction false} LiteralFirst(l: string, p: string, f: string)
    requires IsLiteral(l)
    ensures GlobMatch(l + p, f) <==> l <= f && GlobMatch(p, f[|l|..])
  {
    if l == "" {
      assert l + p == p && f[0..] == f;
    } else {
      var q := l + p;
      assert q[0] == l[0] && q[1..] == l[1..] + p;
      StarsStart(q);
      if f != "" {
        LiteralFirst(l[1..], p, f[1..]);
        assert l <= f <==> l[0] == f[0] && l[1..] <= f[1..];
      }
    }
  }

  lemma AnyPathAdmits(f: string)
    ensures GlobMatch("**", f)
  {
    assert f[|f|..] == "" && GlobMatch("**"[2..], "");
  }

  /** A literal directory, a slash and `**` admit exactly what lies below that directory. */
  lemma BelowDirectory(dir: string, f: string)
    requires IsLiteral(dir)
    ensures GlobMatch(dir + "/**", f) <==> dir + "/" <= f
  {
    assert dir + "/**" == (dir + "/") + "**";
    LiteralFirst(dir + "/", "**", f);
    if dir + "/" <= f { AnyPathAdmits(f[|dir + "/"|..]); }
  }

  /** What follows the last slash of a path, or all of a path without one. */
  function LastSegment(f: string): (s: string) {
    if f == "" || f[|f| - 1] == '/' then "" else LastSegment(f[..|f| - 1]) + [f[|f| - 1]]
  }

  lemma {:induction false} LastSegmentIs(dir: string, name: string)
    requires SlashFree(name) && (dir == "" || dir[|dir| - 1] == '/')
    ensures LastSegment(dir + name) == name
  {
    if name == "" {
      assert dir + name == dir;
    } else {
      var init := name[..|name| - 1];
      assert (dir + name)[..|dir + name| - 1] == dir + init;
      LastSegmentIs(dir, init);
    }
  }

  lemma {:induction false} LastSegmentCuts(f: string)
    ensures var s := LastSegment(f);
            SlashFree(s) && |s| <= |f| && f[|f| - |s|..] == s && (|s| < |f| ==> f[|f| - |s| - 1] == '/')
  {
    if f != "" && f[|f| - 1] != '/' {
      LastSegmentCuts(f[..|f| - 1]);
    }
  }

  /** `f` is `name`, or ends in a slash and `name`. */
  predicate EndsInName(name: string, f: string) {
    f == name || (|f| > |name| && f[|f| - |name| - 1] == '/' && f[|f| - |name|..] == name)
  }

  lemma EndsInLastSegment(name: string, f: string)
    requires SlashFree(name)
    ensures EndsInName(name, f) <==> LastSegment(f) == name
  {
    hide LastSegment;
    LastSegmentCuts(f);
    if EndsInName(name, f) {
      var dir := f[..|f| - |name|];
      assert f == dir + name;
      LastSegmentIs(dir, name);
    } else {
      assert |LastSegment(f)| == |f| ==> f[0..] == LastSegment(f);
    }
  }

  lemma AnyDirsMeans(rest: string, f: string)
    ensures GlobMatch("**/" + rest, f)
       <==> GlobMatch(rest, f) || exists k :: 0 < k <= |f| && f[k - 1] == '/' && GlobMatch(rest, f[k..])
  {
    var p := "**/" + rest;
    assert StartsWith(p, "**/") && p[3..] == rest;
  }

  lemma AnywhereEndsIn(name: string, f: string)
    requires IsLiteral(name)
    ensures GlobMatch("**/" + name, f) <==> EndsInName(name, f)
  {
    hide GlobMatch, IsLiteral;
    AnyDirsMeans(name, f);
    LiteralAdmits(name, f);
    if k :| 0 < k <= |f| && f[k - 1] == '/' && GlobMatch(name, f[k..]) {
      LiteralAdmits(name, f[k..]);
    }
    if |f| > |name| {
      LiteralAdmits(name, f[|f| - |name|..]);
    }
  }

  /** `**` and a slash in front of a literal name admit exactly the paths whose last segment is the name. */
  lemma AnywhereByName(name: string, f: string)
    requires IsLiteral(name) && SlashFree(name)
    ensures GlobMatch("**/" + name, f) <==> LastSegment(f) == name
  {
    AnywhereEndsIn(name, f);
    EndsInLastSegment(name, f);
  }

  lemma LiteralAdmits(name: string, f: string)
    requires IsLiteral(name)
    ensures GlobMatch(name, f) <==> f == name
  {
    LiteralFirst(name, "", f);
    assert name + "" == name;
  }

  /** `g` is a run without a slash, and then `r`. */
  predicate IsRunThen(r: string, g: string) {
    |r| <= |g| && g[|g| - |r|..] == r && SlashFree(g[..|g| - |r|])
  }

  /** One star between literals stands for any run without a slash. */
  lemma OneStarAdmits(l: string, r: string, f: string)
    requires IsLiteral(l) && IsLiteral(r)
    ensures GlobMatch(l + ("*" + r), f) <==> l <= f && IsRunThen(r, f[|l|..])
  {
    hide GlobMatch, IsLiteral, IsRunThen;
    LiteralFirst(l, "*" + r, f);
    if l <= f { StarThen(r, f[|l|..]); }
  }

  lemma StarThen(r: string, g: string)
    requires IsLiteral(r)
    ensures GlobMatch("*" + r, g) <==> IsRunThen(r, g)
  {
    var p := "*" + r;
    assert p[1..] == r;
    if |p| > 1 {
      assert p[0..2][1] == r[0];
    }
    StarsStart(p);
    assert GlobMatch(p, g) <==> exists k :: 0 <= k <= |g| && SlashFree(g[..k]) && GlobMatch(r, g[k..]);
    hide GlobMatch, IsLiteral, SlashFree;
    forall k | 0 <= k <= |g|
      ensures GlobMatch(r, g[k..]) <==> k == |g| - |r| && g[k..] == r
    {
      LiteralAdmits(r, g[k..]);
    }
  }

  /** One question mark between literals stands for one character that is no slash. */
  lemma OneQuestionMarkAdmits(l: string, r: string, f: string)
    requires IsLiteral(l) && IsLiteral(r)
    ensures GlobMatch(l + ("?" + r), f) <==> |f| > |l| && l <= f && f[|l|] != '/' && f[|l| + 1..] == r
  {
    var p := "?" + r;
    LiteralFirst(l, p, f);
    if l <= f {
      var g := f[|l|..];
      assert p[1..] == r;
      StarsStart(p);
      if g != "" {
        LiteralAdmits(r, g[1..]);
      }
    }
  }
}
