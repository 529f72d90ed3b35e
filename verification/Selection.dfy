/**
 The capability query of `firmware.py select`: the parsing of `--need`, and the choice among the
 variants of a manifest.
 */
module Selection {
  import opened Wrappers
  import opened Text
  import opened Toml
  import opened Manifest

  datatype NeedError = NoKeys | UnknownKeys(keys: seq<string>)

  // ----- the needed capabilities -----

  /** The pieces that are not blank, stripped. */
  function Stripped(pieces: seq<string>): seq<string> {
    if pieces == [] then []
    else (if Strip(pieces[0]) == "" then [] else [Strip(pieces[0])]) + Stripped(pieces[1..])
  }

  function Unknown(keys: seq<string>): (unknown: seq<string>)
    ensures unknown == [] <==> forall i :: 0 <= i < |keys| ==> keys[i] in KNOWN_CAPABILITIES
    ensures forall key :: key in unknown <==> key in keys && key !in KNOWN_CAPABILITIES
  {
    if keys == [] then []
    else (if keys[0] in KNOWN_CAPABILITIES then [] else [keys[0]]) + Unknown(keys[1..])
  }

  function ParseNeed(raw: string): (r: Result<seq<string>, NeedError>)
    ensures r.Ok? ==> r.value != [] && forall i :: 0 <= i < |r.value| ==> r.value[i] in KNOWN_CAPABILITIES
    ensures r.Err? && r.error.UnknownKeys? ==> r.error.keys != []
  {
    var keys := Stripped(Split(raw, ","));
    if keys == [] then Err(NoKeys)
    else
      var unknown := Unknown(keys);
      if unknown != [] then Err(UnknownKeys(unknown)) else Ok(keys)
  }

  /** A list of known keys, whatever blanks and empty pieces it is written with, is parsed to those keys. */
  lemma NeedReadsBack(pieces: seq<string>)
    requires pieces != [] && forall i :: 0 <= i < |pieces| ==> ',' !in pieces[i]
    ensures match ParseNeed(Join(pieces, ","))
            case Ok(keys) => keys == Stripped(pieces)
            case Err(NoKeys) => Stripped(pieces) == []
            case Err(UnknownKeys(_)) => exists i :: 0 <= i < |Stripped(pieces)| && Stripped(pieces)[i] !in KNOWN_CAPABILITIES
  {
    SplitJoined(pieces, ',');
  }

  /** Pieces that strip to the same keys are the same need. */
  lemma SameKeys(pieces: seq<string>, others: seq<string>)
    requires pieces != [] && forall i :: 0 <= i < |pieces| ==> ',' !in pieces[i]
    requires others != [] && forall i :: 0 <= i < |others| ==> ',' !in others[i]
    requires Stripped(pieces) == Stripped(others)
    ensures ParseNeed(Join(pieces, ",")) == ParseNeed(Join(others, ","))
  {
    SplitJoined(pieces, ',');
    SplitJoined(others, ',');
  }

  lemma {:induction false} StrippedAppend(a: seq<string>, b: seq<string>)
    ensures Stripped(a + b) == Stripped(a) + Stripped(b)
  {
    hide Strip;
    if a == [] {
      assert a + b == b;
    } else {
      assert (a + b)[0] == a[0] && (a + b)[1..] == a[1..] + b;
      StrippedAppend(a[1..], b);
    }
  }

  predicate IsBlank(s: string) {
    forall i :: 0 <= i < |s| ==> IsSpace(s[i])
  }

  /** Stripping takes exactly the white space off both ends. */
  lemma {:induction false} StripsPadding(before: string, word: string, after: string)
    requires IsBlank(before) && IsBlank(after)
    requires word != "" ==> !IsSpace(word[0]) && !IsSpace(word[|word| - 1])
    ensures Strip(before + word + after) == word
    decreases |before| + |after|
  {
    hide IsSpace;
    var s := before + word + after;
    if before != "" {
      assert s[0] == before[0] && s[1..] == before[1..] + word + after;
      StripsPadding(before[1..], word, after);
    } else if after != "" {
      assert IsSpace(s[|s| - 1]) by { assert s[|s| - 1] == after[|after| - 1]; }
      if word == "" {
        assert s[0] == after[0] && s[1..] == before + word + after[1..];
        StripsPadding(before, word, after[1..]);
      } else {
        assert s[0] == word[0] && s[..|s| - 1] == before + word + after[..|after| - 1];
        StripsPadding(before, word, after[..|after| - 1]);
      }
    } else {
      assert s == word;
    }
  }

  lemma StrippedBetween(a: seq<string>, blank: string, b: seq<string>)
    requires IsBlank(blank)
    ensures Stripped(a + [blank] + b) == Stripped(a + b)
  {
    hide Strip;
    StripsPadding(blank, "", "");
    assert blank + "" + "" == blank;
    assert Stripped([blank]) == [];
    hide Stripped;
    StrippedAppend(a, b);
    StrippedAppend(a, [blank]);
    StrippedAppend(a + [blank], b);
    assert Stripped(a) + [] == Stripped(a);
  }

  /** A piece that is blank changes nothing about what is needed. */
  lemma BlankPieceDrops(a: seq<string>, blank: string, b: seq<string>)
    requires a + b != [] && forall i :: 0 <= i < |a + b| ==> ',' !in (a + b)[i]
    requires IsBlank(blank)
    ensures ParseNeed(Join(a + [blank] + b, ",")) == ParseNeed(Join(a + b, ","))
  {
    hide Join, ParseNeed, Strip, Stripped;
    StrippedBetween(a, blank, b);
    var pieces := a + [blank] + b;
    forall i | 0 <= i < |pieces|
      ensures ',' !in pieces[i]
    {
      assert pieces[i] == if i < |a| then (a + b)[i] else if i == |a| then blank else (a + b)[i - 1];
    }
    SameKeys(pieces, a + b);
  }

  lemma {:induction false} StrippedPadded(pieces: seq<string>, keys: seq<string>)
    requires |pieces| == |keys|
    requires forall i :: 0 <= i < |keys| ==> keys[i] != "" && Strip(pieces[i]) == keys[i]
    ensures Stripped(pieces) == keys
  {
    hide Strip;
    if pieces != [] {
      StrippedPadded(pieces[1..], keys[1..]);
    }
  }

  /** Keys that the probe reports are understood whatever white space is around them. */
  lemma PaddedNeed(before: seq<string>, keys: seq<string>, after: seq<string>, pieces: seq<string>)
    requires keys != [] && |before| == |keys| == |after| == |pieces|
    requires forall i :: 0 <= i < |keys| ==>
               && keys[i] in ["settrace", "save_names", "set_local", "f_back"]
               && IsBlank(before[i]) && IsBlank(after[i]) && pieces[i] == before[i] + keys[i] + after[i]
    ensures ParseNeed(Join(pieces, ",")) == Ok(keys)
  {
    hide Join, Strip, IsBlank;
    forall i | 0 <= i < |keys|
      ensures keys[i] != "" && Strip(pieces[i]) == keys[i] && ',' !in pieces[i]
    {
      PaddedKey(before[i], keys[i], after[i]);
    }
    hide Stripped, ParseNeed;
    StrippedPadded(pieces, keys);
    NeedReadsBack(pieces);
  }

  lemma PaddedKey(before: string, key: string, after: string)
    requires key in ["settrace", "save_names", "set_local", "f_back"] && IsBlank(before) && IsBlank(after)
    ensures key != "" && Strip(before + key + after) == key && ',' !in before + key + after
  {
    hide Strip, IsBlank;
    StripsPadding(before, key, after);
    NoCommaInPadding(before);
    NoCommaInPadding(after);
  }

  lemma NoCommaInPadding(blank: string)
    requires IsBlank(blank)
    ensures ',' !in blank
  {
  }

  // ----- the choice -----

  /** A variant marked deprecated, by whatever value counts as true, takes no part. */
  predicate IsDeprecated(v: Table) {
    match Get(v, "deprecated")
    case None => false
    case Some(Bool(b)) => b
    case Some(Str(s)) => s != ""
    case Some(Arr(items)) => items != []
    case Some(Tbl(entries)) => entries != []
  }

  predicate HasText(v: Table, key: string, wanted: Option<string>) {
    wanted.Some? ==> Get(v, key) == Some(Str(wanted.value))
  }

  predicate IsCandidate(v: Table, port: Option<string>, board: Option<string>) {
    !IsDeprecated(v) && HasText(v, "port", port) && HasText(v, "board", board)
  }

  /** The variant's capability table holds the key with exactly the value true. */
  predicate Claims(v: Table, key: string) {
    var caps := Get(v, "capabilities");
    caps.Some? && caps.value.Tbl? && Get(caps.value.entries, key) == Some(Bool(true))
  }

  predicate ClaimsAll(v: Table, need: seq<string>) {
    forall i :: 0 <= i < |need| ==> Claims(v, need[i])
  }

  function Candidates(variants: seq<Table>, port: Option<string>, board: Option<string>): seq<Table> {
    if variants == [] then []
    else (if IsCandidate(variants[0], port, board) then [variants[0]] else []) + Candidates(variants[1..], port, board)
  }

  function Matches(candidates: seq<Table>, need: seq<string>): seq<Table> {
    if candidates == [] then []
    else (if ClaimsAll(candidates[0], need) then [candidates[0]] else []) + Matches(candidates[1..], need)
  }

  function SelectVariants(variants: seq<Table>, need: seq<string>, port: Option<string>, board: Option<string>)
    : Result<(seq<Table>, seq<Table>), NeedError>
  {
    if need == [] then Err(NoKeys)
    else
      var candidates := Candidates(variants, port, board);
      Ok((candidates, Matches(candidates, need)))
  }

  // ----- what is selected from a manifest that was generated -----

  /** The fragment's own list of capabilities claims the key. */
  predicate FragmentClaims(frag: Fragment, key: string)
    requires IsTextual(frag)
  {
    var entries := frag["capabilities"].entries;
    exists i :: 0 <= i < |entries| && entries[i] == (key, JBool(true))
  }

  predicate FragmentFits(frag: Fragment, need: seq<string>, port: Option<string>, board: Option<string>)
    requires IsTextual(frag)
  {
    && (forall i :: 0 <= i < |need| ==> FragmentClaims(frag, need[i]))
    && IsText(frag, "port") && (port.Some? ==> frag["port"].s == port.value)
    && IsText(frag, "board") && (board.Some? ==> frag["board"].s == board.value)
  }

  function Fitting(fragments: seq<Fragment>, need: seq<string>, port: Option<string>, board: Option<string>)
    : (fitting: seq<Fragment>)
    requires forall i :: 0 <= i < |fragments| ==> IsTextual(fragments[i])
    ensures forall i :: 0 <= i < |fitting| ==> IsTextual(fitting[i])
  {
    if fragments == [] then []
    else
      (if FragmentFits(fragments[0], need, port, board) then [fragments[0]] else [])
      + Fitting(fragments[1..], need, port, board)
  }

  lemma {:induction false} CapabilityGet(entries: seq<(string, Json)>, key: string)
    requires HasBareDistinctKeys(entries) && AreClaims(entries)
    ensures Get(Capabilities(entries), key) == Some(Bool(true))
       <==> exists i :: 0 <= i < |entries| && entries[i] == (key, JBool(true))
  {
    hide IsBareKey;
    if entries != [] {
      var n := |entries| - 1;
      CapabilityGet(entries[..n], key);
      assert Capabilities(entries)[..n] == Capabilities(entries[..n]);
      assert IsClaim(entries[n].1);
      if entries[n].0 == key {
        assert Get(Capabilities(entries), key) == Some(Capability(entries[n].1));
      } else {
        assert Get(Capabilities(entries), key) == Get(Capabilities(entries[..n]), key);
      }
    }
  }

  lemma TableClaims(frag: Fragment, slug: string, tag: string, key: string)
    requires IsTextual(frag)
    ensures Claims(TableOf(frag, slug, tag), key) <==> FragmentClaims(frag, key)
  {
    TableGet(frag, slug, tag, "capabilities");
    CapabilityGet(frag["capabilities"].entries, key);
  }

  lemma TableFits(frag: Fragment, slug: string, tag: string, need: seq<string>, port: Option<string>, board: Option<string>)
    requires IsTextual(frag)
    ensures IsCandidate(TableOf(frag, slug, tag), port, board) && ClaimsAll(TableOf(frag, slug, tag), need)
       <==> FragmentFits(frag, need, port, board)
  {
    TableGet(frag, slug, tag, "deprecated");
    TableGet(frag, slug, tag, "port");
    TableGet(frag, slug, tag, "board");
    assert IsText(frag, TEXT_FIELDS[4]) && IsText(frag, TEXT_FIELDS[5]);
    forall i | 0 <= i < |need| { TableClaims(frag, slug, tag, need[i]); }
  }

  /** What is selected are variants of the manifest that fit the query. */
  lemma {:induction false} SelectedFits(variants: seq<Table>, need: seq<string>, port: Option<string>, board: Option<string>,
                                        v: Table)
    requires v in Matches(Candidates(variants, port, board), need)
    ensures v in variants && IsCandidate(v, port, board) && ClaimsAll(v, need)
  {
    hide IsCandidate, ClaimsAll;
    MatchesNext(variants, need, port, board);
    if v in Matches(Candidates(variants[1..], port, board), need) {
      SelectedFits(variants[1..], need, port, board, v);
    }
  }

  /** Candidates first and matches among them is one pass for both conditions. */
  lemma {:induction false} MatchesNext(variants: seq<Table>, need: seq<string>, port: Option<string>, board: Option<string>)
    requires variants != []
    ensures Matches(Candidates(variants, port, board), need)
         == (if IsCandidate(variants[0], port, board) && ClaimsAll(variants[0], need) then [variants[0]] else [])
            + Matches(Candidates(variants[1..], port, board), need)
  {
    var later := Candidates(variants[1..], port, board);
    if IsCandidate(variants[0], port, board) {
      assert ([variants[0]] + later)[1..] == later;
    } else {
      assert [] + later == later;
    }
  }

  /** The values that do not count as true. */
  predicate IsFalsy(value: Option<Value>) {
    value in [None, Some(Bool(false)), Some(Str("")), Some(Arr([])), Some(Tbl([]))]
  }

  /** What a query asks of a table, key by key. */
  ghost predicate IsWanted(v: Table, need: seq<string>, port: Option<string>, board: Option<string>) {
    && IsFalsy(Get(v, "deprecated"))
    && (forall value :: port == Some(value) ==> Get(v, "port") == Some(Str(value)))
    && (forall value :: board == Some(value) ==> Get(v, "board") == Some(Str(value)))
    && forall key :: key in need ==> ReallyClaims(v, key)
  }

  ghost predicate ReallyClaims(v: Table, key: string) {
    exists caps :: Get(v, "capabilities") == Some(Tbl(caps)) && Get(caps, key) == Some(Bool(true))
  }

  lemma ReallyClaimsIs(v: Table, key: string)
    ensures ReallyClaims(v, key) <==> Claims(v, key)
  {
    hide Get;
    var caps := Get(v, "capabilities");
    if caps.Some? && caps.value.Tbl? {
      assert caps == Some(Tbl(caps.value.entries));
    }
  }

  lemma FalsyIs(v: Table)
    ensures IsFalsy(Get(v, "deprecated")) <==> !IsDeprecated(v)
  {
    hide Get;
  }

  lemma WantedFits(v: Table, need: seq<string>, port: Option<string>, board: Option<string>)
    ensures IsWanted(v, need, port, board) <==> IsCandidate(v, port, board) && ClaimsAll(v, need)
  {
    FalsyIs(v);
    hide Get, IsDeprecated, IsFalsy, Claims, ReallyClaims;
    forall i | 0 <= i < |need| { ReallyClaimsIs(v, need[i]); }
    assert ClaimsAll(v, need) <==> forall key :: key in need ==> ReallyClaims(v, key);
  }

  /** A query selects the wanted tables, each once and in order. */
  lemma SelectsWanted(variants: seq<Table>, need: seq<string>, port: Option<string>, board: Option<string>)
    requires variants != []
    ensures Matches(Candidates(variants, port, board), need)
         == (if IsWanted(variants[0], need, port, board) then [variants[0]] else [])
            + Matches(Candidates(variants[1..], port, board), need)
  {
    MatchesNext(variants, need, port, board);
    WantedFits(variants[0], need, port, board);
  }

  ghost predicate AnyWanted(variants: seq<Table>, need: seq<string>, port: Option<string>, board: Option<string>) {
    exists i :: 0 <= i < |variants| && IsWanted(variants[i], need, port, board)
  }

  /** Table `i` is the only one wanted. */
  ghost predicate OnlyWanted(variants: seq<Table>, need: seq<string>, port: Option<string>, board: Option<string>, i: nat)
    requires i < |variants|
  {
    IsWanted(variants[i], need, port, board)
    && forall j :: 0 <= j < |variants| && j != i ==> !IsWanted(variants[j], need, port, board)
  }

  lemma {:induction false} NothingSelected(variants: seq<Table>, need: seq<string>, port: Option<string>, board: Option<string>)
    ensures Matches(Candidates(variants, port, board), need) == [] <==> !AnyWanted(variants, need, port, board)
  {
    hide IsWanted;
    if variants != [] {
      SelectsWanted(variants, need, port, board);
      hide Matches, Candidates;
      NothingSelected(variants[1..], need, port, board);
      assert forall i :: 0 < i < |variants| ==> variants[i] == variants[1..][i - 1];
      assert forall i :: 0 <= i < |variants| - 1 ==> variants[1..][i] == variants[i + 1];
    }
  }

  /** There is one match exactly when one table alone is wanted, and then it is that table. */
  lemma {:induction false} OneSelected(variants: seq<Table>, need: seq<string>, port: Option<string>, board: Option<string>)
    ensures var selected := Matches(Candidates(variants, port, board), need);
            && (|selected| == 1 ==> exists i :: 0 <= i < |variants| && OnlyWanted(variants, need, port, board, i))
            && forall i :: 0 <= i < |variants| && OnlyWanted(variants, need, port, board, i) ==> selected == [variants[i]]
  {
    hide IsWanted;
    if variants != [] {
      SelectsWanted(variants, need, port, board);
      NothingSelected(variants[1..], need, port, board);
      hide Matches, Candidates;
      OneSelected(variants[1..], need, port, board);
      forall i | 0 <= i < |variants|
        ensures OnlyWanted(variants, need, port, board, i)
           <==> if i == 0 then IsWanted(variants[0], need, port, board) && !AnyWanted(variants[1..], need, port, board)
                else !IsWanted(variants[0], need, port, board) && OnlyWanted(variants[1..], need, port, board, i - 1)
      {
        OnlyWantedNext(variants, need, port, board, i);
      }
      if |Matches(Candidates(variants, port, board), need)| == 1 {
        if IsWanted(variants[0], need, port, board) {
          assert OnlyWanted(variants, need, port, board, 0);
        } else {
          var i :| 0 <= i < |variants| - 1 && OnlyWanted(variants[1..], need, port, board, i);
          var j := i + 1;
          assert OnlyWanted(variants, need, port, board, j);
        }
      }
    }
  }

  lemma OnlyWantedNext(variants: seq<Table>, need: seq<string>, port: Option<string>, board: Option<string>, i: nat)
    requires i < |variants|
    ensures OnlyWanted(variants, need, port, board, i)
       <==> if i == 0 then IsWanted(variants[0], need, port, board) && !AnyWanted(variants[1..], need, port, board)
            else !IsWanted(variants[0], need, port, board) && OnlyWanted(variants[1..], need, port, board, i - 1)
  {
    hide IsWanted;
    var later := variants[1..];
    assert forall j :: 0 < j < |variants| ==> variants[j] == later[j - 1];
    assert forall j :: 0 <= j < |later| ==> later[j] == variants[j + 1];
  }

  /**
   Generating and selecting fit together: what a query selects from the tables of a list of
   fragments are the tables of exactly the fragments that claim every needed key as true and have
   the wanted port and board, in order.
   */
  lemma {:induction false} SelectsFitting(fragments: seq<Fragment>, slug: string, tag: string,
                                          need: seq<string>, port: Option<string>, board: Option<string>)
    requires forall i :: 0 <= i < |fragments| ==> IsTextual(fragments[i])
    ensures Matches(Candidates(Tables(fragments, slug, tag), port, board), need)
         == Tables(Fitting(fragments, need, port, board), slug, tag)
  {
    hide IsTextual, TableOf, IsCandidate, ClaimsAll, FragmentFits;
    var variants := Tables(fragments, slug, tag);
    if fragments != [] {
      MatchesNext(variants, need, port, board);
      assert variants[1..] == Tables(fragments[1..], slug, tag);
      SelectsFitting(fragments[1..], slug, tag, need, port, board);
      TableFits(fragments[0], slug, tag, need, port, board);
    }
  }

  /** From fragments to a selection, through the text of the manifest. */
  method GenerateAndSelect(fragments: seq<Fragment>, slug: string, tag: string, expectIds: Option<set<string>>,
                           need: seq<string>, port: Option<string>, board: Option<string>)
    returns (r: Option<seq<Table>>)
    requires forall i :: 0 <= i < |fragments| && IsValid(fragments[i]) ==> IsTextual(fragments[i])
    requires InPlane0(slug) && InPlane0(tag) && need != []
    ensures r.Some? <==> fragments != [] && IsValidSet(fragments, expectIds)
    ensures r.Some? ==> r.value == Tables(Fitting(fragments, need, port, board), slug, tag)
  {
    var text := Assemble(fragments, slug, tag, expectIds);
    if text.Err? { return None; }
    SelectsFitting(fragments, slug, tag, need, port, board);
    var variants := ParseDocument(text.value);
    var selected := SelectVariants(variants.value, need, port, board);
    r := Some(selected.value.1);
  }
}
