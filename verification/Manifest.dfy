/**
 The firmware manifest from end to end: build fragments are validated and printed as TOML by
 `gen_manifest.py`, and read and selected from by `firmware.py`. First come the rules that a
 fragment and a set of fragments have to keep, and the methods that report what is broken of
 them; then the table of a fragment, its printing, and what the reader finds in the text.
 */
module Manifest {
  import opened Wrappers
  import opened Text
  import opened Toml

  /** A parsed JSON value. Objects keep the order of their keys, which are distinct. */
  datatype Json =
    | JStr(s: string)
    | JBool(b: bool)
    | JNumber(value: real)
    | JList(items: seq<Json>)
    | JDict(entries: seq<(string, Json)>)
    | JNull

  /** A fragment file: the fields of its top-level object. */
  type Fragment = map<string, Json>

  const KNOWN_CAPABILITIES := ["settrace", "save_names", "set_local", "f_back"]

  const REQUIRED_FIELDS :=
    ["id", "description", "repo", "source_commit", "port", "board", "build_flags", "capabilities", "artifact",
     "release_asset", "artifact_sha256"]

  /** What ids are compared as: texts, and numbers, which the truth value true is one of. */
  datatype Id = Text(s: string) | Number(value: real)

  datatype Problem =
    | MissingField(field: string)
    | FlagsNotAList
    | CapabilitiesNotATable
    | UnknownCapability
    | BadCapabilityValue
    | BadSha256
    | BadArtifactPath
    | NoReleaseAsset
    | BadToolchain
    | DuplicateId(id: Id)
    | MissingIds(ids: set<Id>)
    | UnexpectedIds(ids: set<Id>)
    | NoFragments

  // ----- validation -----

  predicate Truthy(j: Json) {
    match j
    case JStr(s) => s != ""
    case JBool(b) => b
    case JList(items) => items != []
    case JDict(entries) => entries != []
    case JNumber(value) => value != 0.0
    case JNull => false
  }

  predicate IsClaim(j: Json) {
    j.JBool? || j == JStr("unknown")
  }

  /** The values accepted for a capability; the numbers 0 and 1 are equal to the truth values. */
  predicate KnownValue(j: Json) {
    IsClaim(j) || j == JNumber(0.0) || j == JNumber(1.0)
  }

  predicate IsHexDigest(j: Json) {
    j.JStr? && |j.s| == 64 && forall i :: 0 <= i < |j.s| ==> LowerChar(j.s[i]) in "0123456789abcdef"
  }

  /** A path below the manifest's directory: not empty, not absolute, and no step up in it. */
  predicate IsRelativePath(j: Json) {
    j.JStr? && j.s != "" && j.s[0] != '/' && ".." !in Split(j.s, "/")
  }

  predicate IsToolchain(j: Json) {
    j.JDict? && forall i :: 0 <= i < |j.entries| ==> j.entries[i].1.JStr?
  }

  predicate AllKnown(entries: seq<(string, Json)>) {
    forall i :: 0 <= i < |entries| ==> entries[i].0 in KNOWN_CAPABILITIES
  }

  predicate AllKnownValues(entries: seq<(string, Json)>) {
    forall i :: 0 <= i < |entries| ==> KnownValue(entries[i].1)
  }

  predicate AreClaims(entries: seq<(string, Json)>) {
    forall i :: 0 <= i < |entries| ==> IsClaim(entries[i].1)
  }

  predicate HasRequired(frag: Fragment) {
    forall i :: 0 <= i < |REQUIRED_FIELDS| ==> REQUIRED_FIELDS[i] in frag
  }

  /** What a fragment has to be for `validate_fragment` to find nothing. */
  predicate IsValid(frag: Fragment) {
    && HasRequired(frag)
    && "build_flags" in frag && frag["build_flags"].JList?
    && "capabilities" in frag && frag["capabilities"].JDict?
    && AllKnown(frag["capabilities"].entries)
    && AllKnownValues(frag["capabilities"].entries)
    && "artifact_sha256" in frag && IsHexDigest(frag["artifact_sha256"])
    && "artifact" in frag && IsRelativePath(frag["artifact"])
    && "release_asset" in frag && Truthy(frag["release_asset"])
    && ("toolchain" in frag ==> IsToolchain(frag["toolchain"]))
  }

  method MissingFields(frag: Fragment) returns (problems: seq<Problem>)
    ensures problems == [] <==> HasRequired(frag)
    ensures forall p :: p in problems <==> p.MissingField? && p.field in REQUIRED_FIELDS && p.field !in frag
  {
    problems := [];
    var i := 0;
    while i < |REQUIRED_FIELDS|
      invariant 0 <= i <= |REQUIRED_FIELDS|
      invariant forall p :: p in problems <==> p.MissingField? && p.field in REQUIRED_FIELDS[..i] && p.field !in frag
      invariant problems == [] <==> forall j :: 0 <= j < i ==> REQUIRED_FIELDS[j] in frag
    {
      var field := REQUIRED_FIELDS[i];
      assert REQUIRED_FIELDS[..i + 1] == REQUIRED_FIELDS[..i] + [field];
      if field !in frag { problems := problems + [MissingField(field)]; }
      i := i + 1;
    }
    assert REQUIRED_FIELDS[..i] == REQUIRED_FIELDS;
  }

  /** Which problems a fragment has. */
  predicate HasProblem(frag: Fragment, p: Problem) {
    match p
    case MissingField(field) => field in REQUIRED_FIELDS && field !in frag
    case FlagsNotAList => "build_flags" in frag && !frag["build_flags"].JList?
    case CapabilitiesNotATable => "capabilities" in frag && !frag["capabilities"].JDict?
    case UnknownCapability =>
      "capabilities" in frag && frag["capabilities"].JDict? && !AllKnown(frag["capabilities"].entries)
    case BadCapabilityValue =>
      "capabilities" in frag && frag["capabilities"].JDict? && !AllKnownValues(frag["capabilities"].entries)
    case BadSha256 => "artifact_sha256" !in frag || !IsHexDigest(frag["artifact_sha256"])
    case BadArtifactPath => "artifact" !in frag || !IsRelativePath(frag["artifact"])
    case NoReleaseAsset => "release_asset" !in frag || !Truthy(frag["release_asset"])
    case BadToolchain => "toolchain" in frag && !IsToolchain(frag["toolchain"])
    case _ => false
  }

  /** A fragment is valid exactly when it has no problem. */
  lemma ValidHasNoProblem(frag: Fragment)
    ensures IsValid(frag) <==> forall p :: !HasProblem(frag, p)
  {
    RequiredOnes(frag);
    hide IsHexDigest, IsRelativePath, IsToolchain, AllKnown, AllKnownValues;
    if forall p :: !HasProblem(frag, p) {
      assert forall i :: 0 <= i < |REQUIRED_FIELDS| ==> !HasProblem(frag, MissingField(REQUIRED_FIELDS[i]));
      assert !HasProblem(frag, FlagsNotAList) && !HasProblem(frag, CapabilitiesNotATable);
      assert !HasProblem(frag, UnknownCapability) && !HasProblem(frag, BadCapabilityValue);
      assert !HasProblem(frag, BadSha256) && !HasProblem(frag, BadArtifactPath);
      assert !HasProblem(frag, NoReleaseAsset) && !HasProblem(frag, BadToolchain);
    }
  }

  /** The problems of a table of capabilities. */
  method ValidateCapabilities(frag: Fragment) returns (problems: seq<Problem>)
    ensures forall p :: p in problems <==>
              (p.CapabilitiesNotATable? || p.UnknownCapability? || p.BadCapabilityValue?) && HasProblem(frag, p)
  {
    hide AllKnown, AllKnownValues, IsHexDigest, IsRelativePath, IsToolchain, Truthy;
    problems := [];
    if "capabilities" in frag {
      var caps := frag["capabilities"];
      if !caps.JDict? {
        problems := problems + [CapabilitiesNotATable];
      } else {
        if !AllKnown(caps.entries) { problems := problems + [UnknownCapability]; }
        if !AllKnownValues(caps.entries) { problems := problems + [BadCapabilityValue]; }
      }
    }
  }

  /** The problems of the artifact's fields and of the toolchain. */
  method ValidateArtifact(frag: Fragment) returns (problems: seq<Problem>)
    ensures forall p :: p in problems <==>
              (p.BadSha256? || p.BadArtifactPath? || p.NoReleaseAsset? || p.BadToolchain?) && HasProblem(frag, p)
  {
    hide AllKnown, AllKnownValues, IsHexDigest, IsRelativePath, IsToolchain, Truthy;
    problems := [];
    if "artifact_sha256" !in frag || !IsHexDigest(frag["artifact_sha256"]) { problems := problems + [BadSha256]; }
    if "artifact" !in frag || !IsRelativePath(frag["artifact"]) { problems := problems + [BadArtifactPath]; }
    if "release_asset" !in frag || !Truthy(frag["release_asset"]) { problems := problems + [NoReleaseAsset]; }
    if "toolchain" in frag && !IsToolchain(frag["toolchain"]) { problems := problems + [BadToolchain]; }
  }

  method ValidateFragment(frag: Fragment) returns (problems: seq<Problem>)
    ensures forall p :: p in problems <==> HasProblem(frag, p)
    ensures problems == [] <==> IsValid(frag)
  {
    ValidHasNoProblem(frag);
    hide IsHexDigest, IsRelativePath, IsToolchain, AllKnown, AllKnownValues, HasRequired, IsValid, Truthy;
    problems := MissingFields(frag);
    if "build_flags" in frag && !frag["build_flags"].JList? { problems := problems + [FlagsNotAList]; }
    var ofCapabilities := ValidateCapabilities(frag);
    var ofArtifact := ValidateArtifact(frag);
    problems := problems + ofCapabilities + ofArtifact;
    assert problems != [] ==> problems[0] in problems;
  }

  lemma RequiredOnes(frag: Fragment)
    ensures HasRequired(frag) ==>
              "build_flags" in frag && "capabilities" in frag && "artifact" in frag
              && "release_asset" in frag && "artifact_sha256" in frag
  {
    assert REQUIRED_FIELDS[6] == "build_flags" && REQUIRED_FIELDS[7] == "capabilities" && REQUIRED_FIELDS[8] == "artifact";
    assert REQUIRED_FIELDS[9] == "release_asset" && REQUIRED_FIELDS[10] == "artifact_sha256";
  }

  /** The ids that count: an absent or empty one is not registered. */
  function IdOf(frag: Fragment): Option<Id> {
    if "id" !in frag || !Truthy(frag["id"]) then None
    else
      match frag["id"]
      case JStr(s) => Some(Text(s))
      case JNumber(value) => Some(Number(value))
      case JBool(_) => Some(Number(1.0))
      case _ => None
  }

  function Texts(ids: set<string>): set<Id> {
    set id | id in ids :: Text(id)
  }

  /** The registered ids of the first `n` fragments. */
  function Ids(fragments: seq<Fragment>, n: nat): set<Id>
    requires n <= |fragments|
  {
    set i | 0 <= i < n && IdOf(fragments[i]).Some? :: IdOf(fragments[i]).value
  }

  predicate SameId(a: Fragment, b: Fragment) {
    IdOf(a).Some? && IdOf(a) == IdOf(b)
  }

  ghost predicate DistinctIds(fragments: seq<Fragment>, n: nat)
    requires n <= |fragments|
  {
    forall i, j :: 0 <= i < j < n ==> !SameId(fragments[i], fragments[j])
  }

  /** What a set of fragments has to be for the check to find nothing. */
  ghost predicate IsValidSet(fragments: seq<Fragment>, expectIds: Option<set<string>>) {
    && (forall i :: 0 <= i < |fragments| ==> IsValid(fragments[i]))
    && DistinctIds(fragments, |fragments|)
    && (expectIds.Some? ==> Ids(fragments, |fragments|) == Texts(expectIds.value))
  }

  /** Two of the first `n` fragments have the id. */
  ghost predicate Repeats(fragments: seq<Fragment>, n: nat, id: Id)
    requires n <= |fragments|
  {
    exists i, j :: 0 <= i < j < n && IdOf(fragments[i]) == Some(id) && IdOf(fragments[j]) == Some(id)
  }

  ghost predicate SomeHasProblem(fragments: seq<Fragment>, n: nat, p: Problem)
    requires n <= |fragments|
  {
    exists i :: 0 <= i < n && HasProblem(fragments[i], p)
  }

  /** Which problems the first `n` fragments have, each by itself and between them. */
  ghost predicate HaveProblem(fragments: seq<Fragment>, n: nat, p: Problem)
    requires n <= |fragments|
  {
    SomeHasProblem(fragments, n, p) || (p.DuplicateId? && Repeats(fragments, n, p.id))
  }

  /** Which problems a set of fragments has. */
  ghost predicate SetHasProblem(fragments: seq<Fragment>, expectIds: Option<set<string>>, p: Problem) {
    var ids := Ids(fragments, |fragments|);
    match p
    case MissingIds(missing) => expectIds.Some? && missing == Texts(expectIds.value) - ids && missing != {}
    case UnexpectedIds(extra) => expectIds.Some? && extra == ids - Texts(expectIds.value) && extra != {}
    case _ => HaveProblem(fragments, |fragments|, p)
  }

  lemma HaveProblemNext(fragments: seq<Fragment>, n: nat, p: Problem)
    requires n < |fragments|
    ensures HaveProblem(fragments, n + 1, p)
       <==> HaveProblem(fragments, n, p) || HasProblem(fragments[n], p)
            || (p.DuplicateId? && IdOf(fragments[n]) == Some(p.id) && p.id in Ids(fragments, n))
  {
    hide HasProblem, IdOf;
    assert HasProblem(fragments[n], p) ==> SomeHasProblem(fragments, n + 1, p);
    if p.DuplicateId? && IdOf(fragments[n]) == Some(p.id) && p.id in Ids(fragments, n) {
      var i :| 0 <= i < n && IdOf(fragments[i]).Some? && IdOf(fragments[i]).value == p.id;
      assert IdOf(fragments[i]) == Some(p.id);
    }
    if p.DuplicateId? && Repeats(fragments, n + 1, p.id) {
      var i, j :| 0 <= i < j < n + 1 && IdOf(fragments[i]) == Some(p.id) && IdOf(fragments[j]) == Some(p.id);
      assert IdOf(fragments[i]).value in Ids(fragments, n);
    }
  }

  lemma NobodyHasProblem(fragments: seq<Fragment>)
    ensures Ids(fragments, 0) == {} && DistinctIds(fragments, 0) && forall p :: !HaveProblem(fragments, 0, p)
  {
  }

  lemma OwnProblems(fragments: seq<Fragment>, n: nat, p: Problem)
    requires n <= |fragments| && (p.MissingIds? || p.UnexpectedIds?)
    ensures !HaveProblem(fragments, n, p)
  {
  }

  /** The problems of the fragments, each by itself and between them, and the ids they register. */
  method ValidateFragments(fragments: seq<Fragment>) returns (problems: seq<Problem>, seen: set<Id>)
    ensures seen == Ids(fragments, |fragments|)
    ensures forall p :: p in problems <==> HaveProblem(fragments, |fragments|, p)
    ensures problems == []
       <==> (forall i :: 0 <= i < |fragments| ==> IsValid(fragments[i])) && DistinctIds(fragments, |fragments|)
  {
    hide IsValid, SameId, IdOf, HasProblem, HaveProblem, Ids, DistinctIds;
    problems, seen := [], {};
    NobodyHasProblem(fragments);
    var i := 0;
    while i < |fragments|
      invariant 0 <= i <= |fragments|
      invariant seen == Ids(fragments, i)
      invariant forall p :: p in problems <==> HaveProblem(fragments, i, p)
      invariant problems == [] <==> (forall j :: 0 <= j < i ==> IsValid(fragments[j])) && DistinctIds(fragments, i)
    {
      var found := ValidateFragment(fragments[i]);
      forall p { HaveProblemNext(fragments, i, p); }
      IdsNext(fragments, i);
      problems := problems + found;
      var id := IdOf(fragments[i]);
      if id.Some? {
        if id.value in seen {
          problems := problems + [DuplicateId(id.value)];
        } else {
          seen := seen + {id.value};
        }
      }
      i := i + 1;
    }
  }

  method ValidateFragmentSet(fragments: seq<Fragment>, expectIds: Option<set<string>>) returns (problems: seq<Problem>)
    ensures forall p :: p in problems <==> SetHasProblem(fragments, expectIds, p)
    ensures problems == [] <==> IsValidSet(fragments, expectIds)
  {
    hide IsValid, DistinctIds, Ids, HaveProblem;
    var seen: set<Id>;
    problems, seen := ValidateFragments(fragments);
    forall p: Problem | p.MissingIds? || p.UnexpectedIds? { OwnProblems(fragments, |fragments|, p); }
    if expectIds.Some? {
      var expected := Texts(expectIds.value);
      var missing, extra := expected - seen, seen - expected;
      assert missing == {} && extra == {} <==> seen == expected;
      if missing != {} { problems := problems + [MissingIds(missing)]; }
      if extra != {} { problems := problems + [UnexpectedIds(extra)]; }
    }
  }

  /** A fragment is a duplicate exactly when its id is among those registered before it. */
  lemma IdsNext(fragments: seq<Fragment>, i: nat)
    requires i < |fragments|
    ensures var id := IdOf(fragments[i]);
            && Ids(fragments, i + 1) == Ids(fragments, i) + (if id.Some? then {id.value} else {})
            && (DistinctIds(fragments, i + 1) <==>
                  DistinctIds(fragments, i) && !(id.Some? && id.value in Ids(fragments, i)))
  {
    hide IdOf;
    var id := IdOf(fragments[i]);
    if id.Some? && id.value in Ids(fragments, i) {
      var j :| 0 <= j < i && IdOf(fragments[j]).Some? && IdOf(fragments[j]).value == id.value;
      assert SameId(fragments[j], fragments[i]);
    } else {
      forall j | 0 <= j < i
        ensures !SameId(fragments[j], fragments[i])
      {
        assert IdOf(fragments[j]).Some? ==> IdOf(fragments[j]).value in Ids(fragments, i);
      }
    }
  }

  // ----- the rules, one by one -----

  /** The values that do not count as true. */
  lemma FalsyOnes(j: Json)
    ensures !Truthy(j) <==> j in [JStr(""), JBool(false), JNumber(0.0), JList([]), JDict([]), JNull]
  {
  }

  lemma AcceptedClaims(j: Json)
    ensures KnownValue(j) <==> j in [JBool(true), JBool(false), JStr("unknown"), JNumber(0.0), JNumber(1.0)]
  {
  }

  lemma HexDigits(s: string)
    ensures IsHexDigest(JStr(s))
       <==> |s| == 64 && forall i :: 0 <= i < |s| ==> '0' <= s[i] <= '9' || 'a' <= s[i] <= 'f' || 'A' <= s[i] <= 'F'
  {
    hide LowerChar;
    forall c: char { HexDigitChar(c); }
  }

  lemma HexDigitChar(c: char)
    ensures LowerChar(c) in "0123456789abcdef" <==> '0' <= c <= '9' || 'a' <= c <= 'f' || 'A' <= c <= 'F'
  {
    var digits := "0123456789abcdef";
    var d := LowerChar(c);
    if '0' <= d <= '9' {
      var k := d as int - '0' as int;
      assert digits[k] == d;
    } else if 'a' <= d <= 'f' {
      var k := d as int - 'a' as int + 10;
      assert digits[k] == d;
    }
  }

  /** A path is relative exactly when it is not empty, does not begin with a slash, and takes no step up. */
  lemma RelativePaths(steps: seq<string>)
    requires steps != [] && forall i :: 0 <= i < |steps| ==> '/' !in steps[i]
    ensures IsRelativePath(JStr(Join(steps, "/"))) <==> steps[0] != "" && ".." !in steps
  {
    SplitJoined(steps, '/');
    hide Split;
    var path := Join(steps, "/");
    if steps[0] != "" {
      assert path[0] == steps[0][0];
    } else if |steps| > 1 {
      assert path == "/" + Join(steps[1..], "/") by { assert "" + ("/" + Join(steps[1..], "/")) == "/" + Join(steps[1..], "/"); }
    }
  }

  predicate HasEleven(frag: Fragment) {
    && "id" in frag && "description" in frag && "repo" in frag && "source_commit" in frag && "port" in frag && "board" in frag
    && "build_flags" in frag && "capabilities" in frag && "artifact" in frag && "release_asset" in frag && "artifact_sha256" in frag
  }

  /** The rules spelled out: a fragment without problems is one that has all eleven fields, each as it should be. */
  predicate KeepsRules(frag: Fragment) {
    && HasEleven(frag)
    && frag["build_flags"].JList? && frag["capabilities"].JDict?
    && (forall entry :: entry in frag["capabilities"].entries ==>
          entry.0 in ["settrace", "save_names", "set_local", "f_back"] && KnownValue(entry.1))
    && IsHexDigest(frag["artifact_sha256"]) && IsRelativePath(frag["artifact"]) && Truthy(frag["release_asset"])
    && ("toolchain" in frag ==> frag["toolchain"].JDict? && forall entry :: entry in frag["toolchain"].entries ==> entry.1.JStr?)
  }

  lemma ValidExactly(frag: Fragment)
    ensures IsValid(frag) <==> KeepsRules(frag)
  {
    RequiredOnes(frag);
    AllFields(frag);
    hide KnownValue, IsHexDigest, IsRelativePath, Truthy, HasRequired;
    if "capabilities" in frag && frag["capabilities"].JDict? {
      EntriesKnown(frag["capabilities"].entries);
    }
    if "toolchain" in frag {
      ToolchainIs(frag["toolchain"]);
    }
    hide AllKnown, AllKnownValues, IsToolchain;
  }

  lemma AllFields(frag: Fragment)
    ensures HasRequired(frag) <==> HasEleven(frag)
  {
    RequiredOnes(frag);
    assert REQUIRED_FIELDS[0] == "id" && REQUIRED_FIELDS[1] == "description" && REQUIRED_FIELDS[2] == "repo";
    assert REQUIRED_FIELDS[3] == "source_commit" && REQUIRED_FIELDS[4] == "port" && REQUIRED_FIELDS[5] == "board";
  }

  lemma EntriesKnown(entries: seq<(string, Json)>)
    ensures AllKnown(entries) && AllKnownValues(entries)
       <==> forall entry :: entry in entries ==> entry.0 in ["settrace", "save_names", "set_local", "f_back"] && KnownValue(entry.1)
  {
    hide KnownValue;
  }

  lemma ToolchainIs(j: Json)
    ensures IsToolchain(j) <==> j.JDict? && forall entry :: entry in j.entries ==> entry.1.JStr?
  {
  }

  /** The field a problem is about. */
  function FieldOf(p: Problem): string {
    match p
    case MissingField(field) => field
    case FlagsNotAList => "build_flags"
    case CapabilitiesNotATable => "capabilities"
    case UnknownCapability => "capabilities"
    case BadCapabilityValue => "capabilities"
    case BadSha256 => "artifact_sha256"
    case BadArtifactPath => "artifact"
    case NoReleaseAsset => "release_asset"
    case BadToolchain => "toolchain"
    case _ => ""
  }

  /** Each problem is about its field alone: fragments that agree on that have it or have it not. */
  lemma ProblemOfField(frag: Fragment, other: Fragment, p: Problem)
    requires var field := FieldOf(p);
             (field in frag <==> field in other) && (field in frag ==> frag[field] == other[field])
    ensures HasProblem(frag, p) == HasProblem(other, p)
  {
    hide IsHexDigest, IsRelativePath, IsToolchain, AllKnown, AllKnownValues, Truthy;
  }

  /** Ids are compared as texts or as numbers; true counts as one, and what is empty, zero or null is no id. */
  lemma IdsCompared(frag: Fragment, id: Id)
    requires "id" in frag && !frag["id"].JList? && !frag["id"].JDict?
    ensures IdOf(frag) == Some(id)
       <==> match frag["id"]
            case JStr(s) => s != "" && id == Text(s)
            case JNumber(value) => value != 0.0 && id == Number(value)
            case JBool(b) => b && id == Number(1.0)
            case _ => false
  {
  }

  /** Missing are the expected ids that no fragment has, and unexpected those that were not asked for. */
  lemma IdsAccounted(fragments: seq<Fragment>, expectIds: Option<set<string>>, ids: set<Id>)
    ensures SetHasProblem(fragments, expectIds, MissingIds(ids))
       <==> expectIds.Some? && ids != {}
            && forall id :: id in ids <==> (exists s :: s in expectIds.value && id == Text(s)) && !HasId(fragments, id)
    ensures SetHasProblem(fragments, expectIds, UnexpectedIds(ids))
       <==> expectIds.Some? && ids != {}
            && forall id :: id in ids <==> HasId(fragments, id) && !exists s :: s in expectIds.value && id == Text(s)
  {
    hide IdOf;
    var all := Ids(fragments, |fragments|);
    assert forall id :: id in all <==> HasId(fragments, id) by {
      forall id
        ensures id in all <==> HasId(fragments, id)
      {
        if i :| 0 <= i < |fragments| && IdOf(fragments[i]) == Some(id) { assert IdOf(fragments[i]).value in all; }
      }
    }
    hide Ids, HasId;
    if expectIds.Some? {
      var expected := Texts(expectIds.value);
      assert forall id :: id in expected <==> exists s :: s in expectIds.value && id == Text(s);
      hide Texts;
      assert ids == expected - all <==> forall id :: id in ids <==> id in expected && id !in all;
      assert ids == all - expected <==> forall id :: id in ids <==> id in all && id !in expected;
    }
  }

  ghost predicate HasId(fragments: seq<Fragment>, id: Id) {
    exists i :: 0 <= i < |fragments| && IdOf(fragments[i]) == Some(id)
  }

  // ----- the table of a fragment -----

  const TEXT_FIELDS := ["id", "description", "repo", "source_commit", "port", "board", "artifact", "artifact_sha256"]

  const NOTE_FIELDS := ["source_commit_note", "capabilities_note", "notes"]

  predicate IsText(frag: Fragment, field: string) {
    field in frag && frag[field].JStr? && InPlane0(frag[field].s)
  }

  /** A note is left out when it is absent or empty. */
  predicate HasNote(frag: Fragment, field: string) {
    field in frag && Truthy(frag[field])
  }

  predicate IsNote(frag: Fragment, field: string) {
    HasNote(frag, field) ==> IsText(frag, field)
  }

  predicate AreTexts(items: seq<Json>) {
    forall i :: 0 <= i < |items| ==> items[i].JStr? && InPlane0(items[i].s)
  }

  predicate HasBareDistinctKeys(entries: seq<(string, Json)>) {
    && (forall i :: 0 <= i < |entries| ==> IsBareKey(entries[i].0))
    && forall i, j :: 0 <= i < j < |entries| ==> entries[i].0 != entries[j].0
  }

  predicate AreTextPairs(entries: seq<(string, Json)>) {
    HasBareDistinctKeys(entries) && forall i :: 0 <= i < |entries| ==> entries[i].1.JStr? && InPlane0(entries[i].1.s)
  }

  /**
   What validation leaves to the writer of a fragment: the text fields are strings, in plane 0 of
   Unicode, and the keys of its tables are bare and, as those of any object, distinct.
   */
  predicate IsTextual(frag: Fragment) {
    && (forall i :: 0 <= i < |TEXT_FIELDS| ==> IsText(frag, TEXT_FIELDS[i]))
    && (forall i :: 0 <= i < |NOTE_FIELDS| ==> IsNote(frag, NOTE_FIELDS[i]))
    && IsText(frag, "release_asset")
    && "build_flags" in frag && frag["build_flags"].JList? && AreTexts(frag["build_flags"].items)
    && "capabilities" in frag && frag["capabilities"].JDict? && HasBareDistinctKeys(frag["capabilities"].entries)
    && AreClaims(frag["capabilities"].entries)
    && (HasNote(frag, "toolchain") ==> frag["toolchain"].JDict? && AreTextPairs(frag["toolchain"].entries))
  }

  function TextItems(items: seq<Json>): seq<Value>
    requires AreTexts(items)
  {
    seq(|items|, i requires 0 <= i < |items| => Str(items[i].s))
  }

  function Capability(j: Json): Value
    requires IsClaim(j)
  {
    if j.JBool? then Bool(j.b) else Str(j.s)
  }

  function Capabilities(entries: seq<(string, Json)>): Table
    requires AreClaims(entries)
  {
    seq(|entries|, i requires 0 <= i < |entries| => (entries[i].0, Capability(entries[i].1)))
  }

  function TextPairs(entries: seq<(string, Json)>): Table
    requires AreTextPairs(entries)
  {
    seq(|entries|, i requires 0 <= i < |entries| => (entries[i].0, Str(entries[i].1.s)))
  }

  /** Where the release asset of a fragment is downloaded from. */
  function DownloadUrl(frag: Fragment, slug: string, tag: string): string
    requires IsText(frag, "release_asset")
  {
    "https://github.com/" + slug + "/releases/download/" + tag + "/" + frag["release_asset"].s
  }

  const FIELDS :=
    ["id", "deprecated", "description", "repo", "source_commit", "source_commit_note", "port", "board",
     "build_flags", "capabilities", "capabilities_note", "artifact", "artifact_sha256", "download_url",
     "notes", "toolchain"]

  /** The value of one field of a manifest table; None for one that is left out. */
  function ValueOf(frag: Fragment, slug: string, tag: string, field: string): Option<Value>
    requires IsTextual(frag)
  {
    if field in TEXT_FIELDS then Some(Str(frag[field].s))
    else if field in NOTE_FIELDS then if HasNote(frag, field) then Some(Str(frag[field].s)) else None
    else if field == "deprecated" then Some(Bool(false))
    else if field == "build_flags" then Some(Arr(TextItems(frag["build_flags"].items)))
    else if field == "capabilities" then Some(Tbl(Capabilities(frag["capabilities"].entries)))
    else if field == "download_url" then Some(Str(DownloadUrl(frag, slug, tag)))
    else if field == "toolchain" && HasNote(frag, "toolchain") then Some(Tbl(TextPairs(frag["toolchain"].entries)))
    else None
  }

  function Values(frag: Fragment, slug: string, tag: string): seq<Option<Value>>
    requires IsTextual(frag)
  {
    seq(|FIELDS|, i requires 0 <= i < |FIELDS| => ValueOf(frag, slug, tag, FIELDS[i]))
  }

  /** The fields that have a value, in order. */
  function Collect(fields: seq<string>, values: seq<Option<Value>>): Table
    requires |fields| == |values|
  {
    if fields == [] then []
    else
      var n := |fields| - 1;
      Collect(fields[..n], values[..n]) + if values[n].Some? then [(fields[n], values[n].value)] else []
  }

  /** The table a reader should find for a fragment. */
  function TableOf(frag: Fragment, slug: string, tag: string): Table
    requires IsTextual(frag)
  {
    Collect(FIELDS, Values(frag, slug, tag))
  }

  /** What an entry of a collected table is. */
  lemma {:induction false} CollectedFrom(fields: seq<string>, values: seq<Option<Value>>, i: nat) returns (j: nat)
    requires |fields| == |values| && i < |Collect(fields, values)|
    ensures j < |fields| && values[j].Some? && Collect(fields, values)[i] == (fields[j], values[j].value)
  {
    var n := |fields| - 1;
    if i < |Collect(fields[..n], values[..n])| {
      j := CollectedFrom(fields[..n], values[..n], i);
    } else {
      j := n;
    }
  }

  lemma {:induction false} CollectDistinct(fields: seq<string>, values: seq<Option<Value>>)
    requires |fields| == |values| && forall i, j :: 0 <= i < j < |fields| ==> fields[i] != fields[j]
    ensures DistinctKeys(Collect(fields, values))
  {
    if fields != [] {
      var n := |fields| - 1;
      CollectDistinct(fields[..n], values[..n]);
      var init := Collect(fields[..n], values[..n]);
      forall i | 0 <= i < |init|
        ensures init[i].0 != fields[n]
      {
        var j := CollectedFrom(fields[..n], values[..n], i);
      }
    }
  }

  /** The length and the first letter tell the field names apart. */
  function Signature(field: string): (int, char) {
    (|field|, if field == "" then ' ' else field[0])
  }

  const SIGNATURES: seq<(int, char)> :=
    [(2, 'i'), (10, 'd'), (11, 'd'), (4, 'r'), (13, 's'), (18, 's'), (4, 'p'), (5, 'b'),
     (11, 'b'), (12, 'c'), (17, 'c'), (8, 'a'), (15, 'a'), (12, 'd'), (5, 'n'), (9, 't')]

  lemma FieldsDistinct()
    ensures forall i, j :: 0 <= i < j < |FIELDS| ==> FIELDS[i] != FIELDS[j]
  {
    assert forall i :: 0 <= i < |FIELDS| ==> Signature(FIELDS[i]) == SIGNATURES[i];
    assert forall i, j :: 0 <= i < j < |SIGNATURES| ==> SIGNATURES[i] != SIGNATURES[j];
  }

  lemma FieldsBare()
    ensures forall i :: 0 <= i < |FIELDS| ==> IsBareKey(FIELDS[i])
  {
  }

  lemma InPlane0Append(a: string, b: string)
    requires InPlane0(a) && InPlane0(b)
    ensures InPlane0(a + b)
  {
  }

  lemma DownloadUrlText(frag: Fragment, slug: string, tag: string)
    requires IsText(frag, "release_asset") && InPlane0(slug) && InPlane0(tag)
    ensures InPlane0(DownloadUrl(frag, slug, tag))
  {
    var asset := frag["release_asset"].s;
    InPlane0Append("https://github.com/", slug);
    InPlane0Append("https://github.com/" + slug, "/releases/download/");
    InPlane0Append("https://github.com/" + slug + "/releases/download/", tag);
    InPlane0Append("https://github.com/" + slug + "/releases/download/" + tag, "/");
    InPlane0Append("https://github.com/" + slug + "/releases/download/" + tag + "/", asset);
  }

  lemma CapabilitiesPrintable(entries: seq<(string, Json)>)
    requires HasBareDistinctKeys(entries) && AreClaims(entries)
    ensures IsPrintable(Tbl(Capabilities(entries)))
  {
    hide IsBareKey;
    assert InPlane0("unknown");
  }

  lemma TextPairsPrintable(entries: seq<(string, Json)>)
    requires AreTextPairs(entries)
    ensures IsPrintable(Tbl(TextPairs(entries)))
  {
    hide IsBareKey;
  }

  /** The asset of a release is under the repository, its releases and its tag. */
  lemma DownloadPath(frag: Fragment, owner: string, repo: string, tag: string)
    requires IsText(frag, "release_asset")
    requires forall part :: part in [owner, repo, tag, frag["release_asset"].s] ==> '/' !in part
    ensures Split(DownloadUrl(frag, owner + "/" + repo, tag), "/")
         == ["https:", "", "github.com", owner, repo, "releases", "download", tag, frag["release_asset"].s]
  {
    var asset := frag["release_asset"].s;
    hide Split, Join, InPlane0;
    assert owner in [owner, repo, tag, asset] && repo in [owner, repo, tag, asset];
    assert tag in [owner, repo, tag, asset] && asset in [owner, repo, tag, asset];
    assert DownloadUrl(frag, owner + "/" + repo, tag)
        == "https://github.com/" + (owner + "/" + repo) + "/releases/download/" + tag + "/" + asset;
    hide *;
    UrlParts(owner, repo, tag, asset);
    HeadJoined(owner, [repo, "releases", "download", tag, asset]);
    TailJoined(repo, tag, asset);
    PiecesSplit(owner, repo, tag, asset);
  }

  lemma PiecesSplit(owner: string, repo: string, tag: string, asset: string)
    requires '/' !in owner && '/' !in repo && '/' !in tag && '/' !in asset
    ensures Split(Join(["https:", "", "github.com", owner] + [repo, "releases", "download", tag, asset], "/"), "/")
         == ["https:", "", "github.com", owner, repo, "releases", "download", tag, asset]
  {
    var pieces := ["https:", "", "github.com", owner, repo, "releases", "download", tag, asset];
    assert ["https:", "", "github.com", owner] + [repo, "releases", "download", tag, asset] == pieces;
    hide Split, Join;
    SplitJoined(pieces, '/');
  }

  lemma UrlParts(owner: string, repo: string, tag: string, asset: string)
    ensures "https://github.com/" + (owner + "/" + repo) + "/releases/download/" + tag + "/" + asset
         == "https://github.com/" + (owner + ("/" + (repo + ("/releases/download/" + (tag + ("/" + asset))))))
  {
  }

  lemma HeadJoined(owner: string, tail: seq<string>)
    requires tail != []
    ensures Join(["https:", "", "github.com", owner] + tail, "/") == "https://github.com/" + (owner + ("/" + Join(tail, "/")))
  {
    hide Join;
    var rest := owner + ("/" + Join(tail, "/"));
    JoinNext(owner, tail);
    JoinNext("github.com", [owner] + tail);
    JoinNext("", ["github.com"] + ([owner] + tail));
    JoinNext("https:", [""] + (["github.com"] + ([owner] + tail)));
    assert ["https:"] + ([""] + (["github.com"] + ([owner] + tail))) == ["https:", "", "github.com", owner] + tail;
    HeadText(rest);
  }

  lemma HeadText(rest: string)
    ensures "https:" + ("/" + ("" + ("/" + ("github.com" + ("/" + rest))))) == "https://github.com/" + rest
  {
    Associative("github.com", "/", rest);
    Associative("/", "github.com/", rest);
    Associative("/", "/github.com/", rest);
    Associative("https:", "//github.com/", rest);
    assert "" + ("/" + ("github.com" + ("/" + rest))) == "/" + ("github.com" + ("/" + rest));
  }

  lemma JoinNext(first: string, rest: seq<string>)
    requires rest != []
    ensures Join([first] + rest, "/") == first + ("/" + Join(rest, "/"))
  {
    assert ([first] + rest)[1..] == rest;
  }

  lemma TailJoined(repo: string, tag: string, asset: string)
    ensures Join([repo, "releases", "download", tag, asset], "/")
         == repo + ("/releases/download/" + (tag + ("/" + asset)))
  {
    var rest := tag + ("/" + asset);
    assert Join([asset], "/") == asset;
    hide Join;
    JoinNext(tag, [asset]);
    JoinNext("download", [tag] + [asset]);
    JoinNext("releases", ["download"] + ([tag] + [asset]));
    JoinNext(repo, ["releases"] + (["download"] + ([tag] + [asset])));
    assert [repo] + (["releases"] + (["download"] + ([tag] + [asset]))) == [repo, "releases", "download", tag, asset];
    assert "/" + ("releases" + ("/" + ("download" + ("/" + rest)))) == "/releases/download/" + rest;
  }

  /** A fragment that is well-formed by itself and for the printer. */
  function SampleFragment(sha256: string): Fragment {
    map["id" := JStr("a"), "description" := JStr("b"), "repo" := JStr("c"), "source_commit" := JStr("d"), "port" := JStr("unix"),
        "board" := JStr("e"), "build_flags" := JList([JStr("f")]), "capabilities" := JDict([("settrace", JBool(true))]),
        "artifact" := JStr("g"), "release_asset" := JStr("h"), "artifact_sha256" := JStr(sha256)]
  }

  lemma SampleIsFine(sha256: string)
    requires IsHexDigest(JStr(sha256))
    ensures IsValid(SampleFragment(sha256)) && IsTextual(SampleFragment(sha256))
  {
    var frag := SampleFragment(sha256);
    assert IsRelativePath(JStr("g")) by { RelativePaths(["g"]); }
    ValidExactly(frag);
    forall i | 0 <= i < |sha256|
      ensures sha256[i] as int < 0x1_0000
    {
      HexDigits(sha256);
    }
    SampleIsTextual(sha256);
    hide IsTextual, IsRelativePath, IsHexDigest;
  }

  lemma SampleIsTextual(sha256: string)
    requires InPlane0(sha256)
    ensures IsTextual(SampleFragment(sha256))
  {
    hide InPlane0;
    var frag := SampleFragment(sha256);
    LettersAreTexts();
    assert forall i :: 0 <= i < |TEXT_FIELDS| ==> IsText(frag, TEXT_FIELDS[i]) by { SampleTexts(sha256); }
    hide IsText;
    assert IsText(frag, "release_asset") by { assert frag["release_asset"] == JStr("h"); }
    assert frag["build_flags"] == JList([JStr("f")]);
  }

  lemma SampleTexts(sha256: string)
    requires InPlane0(sha256)
    ensures forall i :: 0 <= i < |TEXT_FIELDS| ==> IsText(SampleFragment(sha256), TEXT_FIELDS[i])
  {
    hide InPlane0;
    LettersAreTexts();
  }

  lemma LettersAreTexts()
    ensures InPlane0("a") && InPlane0("b") && InPlane0("c") && InPlane0("d") && InPlane0("e") && InPlane0("f") && InPlane0("g")
            && InPlane0("h") && InPlane0("unix")
  {
  }

  // ----- rendering -----

  /** The printed forms of the elements of a list of flags. */
  function FlagTexts(items: seq<Json>): seq<string>
    requires AreTexts(items)
  {
    seq(|items|, i requires 0 <= i < |items| => TomlString(items[i].s))
  }

  function KeyEquals(key: string, value: string): string {
    key + (" = " + value)
  }

  /** The printed pairs of an inline table. */
  function PairTexts(entries: Table): seq<string> {
    seq(|entries|, i requires 0 <= i < |entries| => KeyEquals(entries[i].0, EmitScalar(entries[i].1)))
  }

  function LineTexts(entries: Table): seq<string>
    requires forall i :: 0 <= i < |entries| ==> IsPrintable(entries[i].1)
  {
    seq(|entries|, i requires 0 <= i < |entries| => EmitLine(entries[i]))
  }

  lemma {:induction false} FlagsJoined(items: seq<Json>)
    requires AreTexts(items) && items != []
    ensures "    " + (Join(FlagTexts(items), ",\n    ") + ",\n]") == EmitItems(TextItems(items))
    decreases |items|
  {
    hide TomlString, InPlane0;
    var t0 := TomlString(items[0].s);
    assert FlagTexts(items)[1..] == FlagTexts(items[1..]) && TextItems(items)[1..] == TextItems(items[1..]);
    if |items| == 1 {
      assert EmitItems(TextItems(items)[1..]) == "]";
      assert ",\n]" == ",\n" + "]";
    } else {
      var later := Join(FlagTexts(items[1..]), ",\n    ");
      FlagsJoined(items[1..]);
      assert ",\n    " == ",\n" + "    ";
      Associative(t0, ",\n    " + later, ",\n]");
      Associative(",\n    ", later, ",\n]");
      Associative(",\n", "    ", later + ",\n]");
    }
  }

  lemma {:induction false} PairsJoined(entries: Table)
    requires entries != []
    ensures Join(PairTexts(entries), ", ") + " }" == EmitPairs(entries)
    decreases |entries|
  {
    hide EmitScalar;
    var (k, v) := (entries[0].0, EmitScalar(entries[0].1));
    assert PairTexts(entries)[1..] == PairTexts(entries[1..]);
    if |entries| == 1 {
      Associative(k, " = " + v, " }");
      Associative(" = ", v, " }");
    } else {
      var later := Join(PairTexts(entries[1..]), ", ");
      PairsJoined(entries[1..]);
      Associative(KeyEquals(k, v), ", " + later, " }");
      Associative(", ", later, " }");
      Associative(k, " = " + v, ", " + (later + " }"));
      Associative(" = ", v, ", " + (later + " }"));
    }
  }

  lemma {:induction false} LinesJoined(first: string, entries: Table)
    requires forall i :: 0 <= i < |entries| ==> IsPrintable(entries[i].1)
    ensures Join([first] + LineTexts(entries), "\n") + "\n" == first + ("\n" + EmitLines(entries))
    decreases |entries|
  {
    hide EmitLine;
    var parts := [first] + LineTexts(entries);
    if entries == [] {
      assert parts == [first];
    } else {
      assert parts[1..] == [EmitLine(entries[0])] + LineTexts(entries[1..]);
      LinesJoined(EmitLine(entries[0]), entries[1..]);
      Associative(first, "\n" + Join(parts[1..], "\n"), "\n");
      Associative("\n", Join(parts[1..], "\n"), "\n");
    }
  }

  /** The printed text of the list of flags. */
  function FlagsText(items: seq<Json>): string
    requires AreTexts(items)
  {
    if items == [] then "[]" else "[\n    " + Join(FlagTexts(items), ",\n    ") + ",\n]"
  }

  function InlineText(entries: Table): string {
    "{ " + Join(PairTexts(entries), ", ") + " }"
  }

  lemma FlagsTextIs(items: seq<Json>)
    requires AreTexts(items)
    ensures FlagsText(items) == EmitValue(Arr(TextItems(items)))
  {
    hide EmitItems, Join, FlagTexts;
    if items != [] {
      FlagsJoined(items);
      var j := Join(FlagTexts(items), ",\n    ");
      assert "[\n    " == "[\n" + "    ";
      Associative("[\n    ", j, ",\n]");
      Associative("[\n", "    ", j + ",\n]");
    }
  }

  lemma InlineTextIs(entries: Table)
    requires IsPrintable(Tbl(entries))
    ensures InlineText(entries) == EmitValue(Tbl(entries))
  {
    hide EmitPairs, IsPrintable;
    if entries == [] {
      assert InlineText(entries) == "{ " + "" + " }";
    } else {
      PairsJoined(entries);
      Associative("{ ", Join(PairTexts(entries), ", "), " }");
    }
  }

  /** What the generator prints for one field; None for a line it leaves out. */
  function TextOf(frag: Fragment, slug: string, tag: string, field: string): Option<string>
    requires IsTextual(frag)
  {
    if field in TEXT_FIELDS then Some(TomlString(frag[field].s))
    else if field in NOTE_FIELDS then if HasNote(frag, field) then Some(TomlString(frag[field].s)) else None
    else if field == "deprecated" then Some("false")
    else if field == "build_flags" then Some(FlagsText(frag["build_flags"].items))
    else if field == "capabilities" then Some(InlineText(Capabilities(frag["capabilities"].entries)))
    else if field == "download_url" then Some(TomlString(DownloadUrl(frag, slug, tag)))
    else if field == "toolchain" && HasNote(frag, "toolchain") then Some(InlineText(TextPairs(frag["toolchain"].entries)))
    else None
  }

  function FieldTexts(frag: Fragment, slug: string, tag: string): seq<Option<string>>
    requires IsTextual(frag)
  {
    seq(|FIELDS|, i requires 0 <= i < |FIELDS| => TextOf(frag, slug, tag, FIELDS[i]))
  }

  function CollectLines(fields: seq<string>, texts: seq<Option<string>>): seq<string>
    requires |fields| == |texts|
  {
    if fields == [] then []
    else
      var n := |fields| - 1;
      CollectLines(fields[..n], texts[..n]) + if texts[n].Some? then [KeyEquals(fields[n], texts[n].value)] else []
  }

  /** The lines of the first `n` fields, behind the header. */
  ghost function LinesUpTo(frag: Fragment, slug: string, tag: string, n: nat): seq<string>
    requires IsTextual(frag) && n <= |FIELDS|
  {
    [HEADER] + CollectLines(FIELDS[..n], FieldTexts(frag, slug, tag)[..n])
  }

  /** The line of one field, as a list of one or none. */
  function LineOf(frag: Fragment, slug: string, tag: string, field: string): seq<string>
    requires IsTextual(frag)
  {
    match TextOf(frag, slug, tag, field)
    case None => []
    case Some(text) => [KeyEquals(field, text)]
  }

  lemma LinesNext(frag: Fragment, slug: string, tag: string, n: nat, field: string)
    requires IsTextual(frag) && n < |FIELDS| && field == FIELDS[n]
    ensures LinesUpTo(frag, slug, tag, n + 1) == LinesUpTo(frag, slug, tag, n) + LineOf(frag, slug, tag, field)
  {
    hide TextOf, IsTextual;
    var texts := FieldTexts(frag, slug, tag);
    assert FIELDS[..n + 1][..n] == FIELDS[..n] && texts[..n + 1][..n] == texts[..n];
  }

  // ----- what is rendered is the printed table -----

  /** The text is the printed form of the value, or both are left out. */
  predicate PrintsAs(value: Option<Value>, text: Option<string>) {
    match value
    case None => text.None?
    case Some(v) => IsPrintable(v) && text == Some(EmitValue(v))
  }

  lemma TextPrints(frag: Fragment, field: string)
    requires IsText(frag, field)
    ensures PrintsAs(Some(Str(frag[field].s)), Some(TomlString(frag[field].s)))
  {
  }

  lemma UrlPrints(frag: Fragment, slug: string, tag: string)
    requires IsText(frag, "release_asset") && InPlane0(slug) && InPlane0(tag)
    ensures PrintsAs(Some(Str(DownloadUrl(frag, slug, tag))), Some(TomlString(DownloadUrl(frag, slug, tag))))
  {
    DownloadUrlText(frag, slug, tag);
    hide DownloadUrl;
  }

  lemma FlagsPrint(items: seq<Json>)
    requires AreTexts(items)
    ensures PrintsAs(Some(Arr(TextItems(items))), Some(FlagsText(items)))
  {
    FlagsTextIs(items);
    hide FlagsText, EmitValue;
    assert IsPrintable(Arr(TextItems(items)));
  }

  lemma InlinePrints(entries: Table)
    requires IsPrintable(Tbl(entries))
    ensures PrintsAs(Some(Tbl(entries)), Some(InlineText(entries)))
  {
    InlineTextIs(entries);
  }

  lemma FieldPrints(frag: Fragment, slug: string, tag: string, field: string)
    requires IsTextual(frag) && InPlane0(slug) && InPlane0(tag)
    ensures PrintsAs(ValueOf(frag, slug, tag, field), TextOf(frag, slug, tag, field))
  {
    hide TomlString, FlagsText, InlineText, DownloadUrl, TextItems, Capabilities, TextPairs, EmitValue, IsPrintable, InPlane0;
    if field in TEXT_FIELDS || (field in NOTE_FIELDS && HasNote(frag, field)) {
      TextPrints(frag, field);
    }
    UrlPrints(frag, slug, tag);
    FlagsPrint(frag["build_flags"].items);
    CapabilitiesPrintable(frag["capabilities"].entries);
    InlinePrints(Capabilities(frag["capabilities"].entries));
    if HasNote(frag, "toolchain") {
      TextPairsPrintable(frag["toolchain"].entries);
      InlinePrints(TextPairs(frag["toolchain"].entries));
    }
    assert PrintsAs(Some(Bool(false)), Some("false")) by { FalsePrints(); }
    hide PrintsAs;
    assert PrintsAs(None, None) by { NothingPrints(); }
  }

  lemma FalsePrints()
    ensures PrintsAs(Some(Bool(false)), Some("false"))
  {
  }

  lemma NothingPrints()
    ensures PrintsAs(None, None)
  {
  }

  lemma {:induction false} LinesCollected(fields: seq<string>, values: seq<Option<Value>>, texts: seq<Option<string>>)
    requires |fields| == |values| == |texts|
    requires forall i :: 0 <= i < |fields| ==> PrintsAs(values[i], texts[i])
    ensures forall i :: 0 <= i < |Collect(fields, values)| ==> IsPrintable(Collect(fields, values)[i].1)
    ensures CollectLines(fields, texts) == LineTexts(Collect(fields, values))
  {
    hide EmitValue, IsPrintable;
    if fields != [] {
      var n := |fields| - 1;
      LinesCollected(fields[..n], values[..n], texts[..n]);
      var before := Collect(fields[..n], values[..n]);
      assert PrintsAs(values[n], texts[n]);
      if values[n].Some? {
        var entry := (fields[n], values[n].value);
        assert LineTexts(before + [entry]) == LineTexts(before) + [EmitLine(entry)];
      } else {
        assert before + [] == before;
      }
    }
  }

  lemma TablePrintable(frag: Fragment, slug: string, tag: string)
    requires IsTextual(frag) && InPlane0(slug) && InPlane0(tag)
    ensures IsPrintableTable(TableOf(frag, slug, tag))
  {
    FieldsDistinct();
    FieldsBare();
    forall i | 0 <= i < |FIELDS| { FieldPrints(frag, slug, tag, FIELDS[i]); }
    hide Collect, Values, FieldTexts, IsPrintable, EmitValue, IsBareKey, IsTextual;
    var values := Values(frag, slug, tag);
    CollectDistinct(FIELDS, values);
    LinesCollected(FIELDS, values, FieldTexts(frag, slug, tag));
    forall i | 0 <= i < |TableOf(frag, slug, tag)|
      ensures IsBareKey(TableOf(frag, slug, tag)[i].0)
    {
      var j := CollectedFrom(FIELDS, values, i);
    }
  }

  function Rendered(frag: Fragment, slug: string, tag: string): string
    requires IsTextual(frag)
  {
    Join([HEADER] + CollectLines(FIELDS, FieldTexts(frag, slug, tag)), "\n") + "\n"
  }

  /** The rendered fragment is the printed form of its table. */
  lemma RenderedIsPrinted(frag: Fragment, slug: string, tag: string)
    requires IsTextual(frag) && InPlane0(slug) && InPlane0(tag)
    ensures IsPrintableTable(TableOf(frag, slug, tag)) && Rendered(frag, slug, tag) == EmitBlock(TableOf(frag, slug, tag))
  {
    TablePrintable(frag, slug, tag);
    forall i | 0 <= i < |FIELDS| { FieldPrints(frag, slug, tag, FIELDS[i]); }
    hide Collect, Values, FieldTexts, CollectLines, LineTexts, IsPrintable, EmitValue, IsTextual, Join, EmitLines, PrintsAs;
    LinesCollected(FIELDS, Values(frag, slug, tag), FieldTexts(frag, slug, tag));
    LinesJoined(HEADER, TableOf(frag, slug, tag));
  }

  lemma NoLines(frag: Fragment, slug: string, tag: string)
    requires IsTextual(frag)
    ensures LinesUpTo(frag, slug, tag, 0) == [HEADER]
  {
    hide IsTextual, FieldTexts;
  }

  lemma FirstLines(frag: Fragment, slug: string, tag: string)
    requires IsTextual(frag)
    ensures LinesUpTo(frag, slug, tag, 8)
         == [HEADER] + LineOf(frag, slug, tag, "id") + LineOf(frag, slug, tag, "deprecated")
            + LineOf(frag, slug, tag, "description") + LineOf(frag, slug, tag, "repo")
            + LineOf(frag, slug, tag, "source_commit") + LineOf(frag, slug, tag, "source_commit_note")
            + LineOf(frag, slug, tag, "port") + LineOf(frag, slug, tag, "board")
  {
    hide IsTextual, LineOf, LinesUpTo;
    NoLines(frag, slug, tag);
    LinesNext(frag, slug, tag, 0, "id");
    LinesNext(frag, slug, tag, 1, "deprecated");
    LinesNext(frag, slug, tag, 2, "description");
    LinesNext(frag, slug, tag, 3, "repo");
    LinesNext(frag, slug, tag, 4, "source_commit");
    LinesNext(frag, slug, tag, 5, "source_commit_note");
    LinesNext(frag, slug, tag, 6, "port");
    LinesNext(frag, slug, tag, 7, "board");
  }

  lemma LastLines(frag: Fragment, slug: string, tag: string)
    requires IsTextual(frag)
    ensures LinesUpTo(frag, slug, tag, 16)
         == LinesUpTo(frag, slug, tag, 8) + LineOf(frag, slug, tag, "build_flags") + LineOf(frag, slug, tag, "capabilities")
            + LineOf(frag, slug, tag, "capabilities_note") + LineOf(frag, slug, tag, "artifact")
            + LineOf(frag, slug, tag, "artifact_sha256") + LineOf(frag, slug, tag, "download_url")
            + LineOf(frag, slug, tag, "notes") + LineOf(frag, slug, tag, "toolchain")
  {
    hide IsTextual, LineOf, LinesUpTo;
    LinesNext(frag, slug, tag, 8, "build_flags");
    LinesNext(frag, slug, tag, 9, "capabilities");
    LinesNext(frag, slug, tag, 10, "capabilities_note");
    LinesNext(frag, slug, tag, 11, "artifact");
    LinesNext(frag, slug, tag, 12, "artifact_sha256");
    LinesNext(frag, slug, tag, 13, "download_url");
    LinesNext(frag, slug, tag, 14, "notes");
    LinesNext(frag, slug, tag, 15, "toolchain");
  }

  /** The rendered text, line by line. */
  lemma RenderedLines(frag: Fragment, slug: string, tag: string)
    requires IsTextual(frag)
    ensures Rendered(frag, slug, tag)
         == Join([HEADER] + LineOf(frag, slug, tag, "id") + LineOf(frag, slug, tag, "deprecated")
                  + LineOf(frag, slug, tag, "description") + LineOf(frag, slug, tag, "repo")
                  + LineOf(frag, slug, tag, "source_commit") + LineOf(frag, slug, tag, "source_commit_note")
                  + LineOf(frag, slug, tag, "port") + LineOf(frag, slug, tag, "board")
                  + LineOf(frag, slug, tag, "build_flags") + LineOf(frag, slug, tag, "capabilities")
                  + LineOf(frag, slug, tag, "capabilities_note") + LineOf(frag, slug, tag, "artifact")
                  + LineOf(frag, slug, tag, "artifact_sha256") + LineOf(frag, slug, tag, "download_url")
                  + LineOf(frag, slug, tag, "notes") + LineOf(frag, slug, tag, "toolchain"), "\n") + "\n"
  {
    hide IsTextual, TextOf, LineOf, Join;
    var texts := FieldTexts(frag, slug, tag);
    assert FIELDS[..|FIELDS|] == FIELDS && texts[..|FIELDS|] == texts;
    assert Rendered(frag, slug, tag) == Join(LinesUpTo(frag, slug, tag, 16), "\n") + "\n";
    hide *;
    FirstLines(frag, slug, tag);
    LastLines(frag, slug, tag);
  }

  lemma TextLine(frag: Fragment, slug: string, tag: string, field: string)
    requires IsTextual(frag) && field in TEXT_FIELDS
    ensures field in frag && frag[field].JStr?
    ensures LineOf(frag, slug, tag, field) == [KeyEquals(field, TomlString(frag[field].s))]
  {
    hide TomlString, InPlane0;
    assert IsText(frag, field);
  }

  lemma NoteLine(frag: Fragment, slug: string, tag: string, field: string)
    requires IsTextual(frag) && field in NOTE_FIELDS
    ensures HasNote(frag, field) ==>
              field in frag && frag[field].JStr?
              && LineOf(frag, slug, tag, field) == [KeyEquals(field, TomlString(frag[field].s))]
    ensures !HasNote(frag, field) ==> LineOf(frag, slug, tag, field) == []
  {
    hide TomlString, InPlane0;
    assert IsNote(frag, field);
  }

  lemma OtherLines(frag: Fragment, slug: string, tag: string)
    requires IsTextual(frag)
    ensures IsText(frag, "release_asset")
    ensures "build_flags" in frag && frag["build_flags"].JList? && AreTexts(frag["build_flags"].items)
    ensures "capabilities" in frag && frag["capabilities"].JDict? && AreClaims(frag["capabilities"].entries)
    ensures HasNote(frag, "toolchain") ==>
              "toolchain" in frag && frag["toolchain"].JDict? && AreTextPairs(frag["toolchain"].entries)
              && LineOf(frag, slug, tag, "toolchain")
              == [KeyEquals("toolchain", InlineText(TextPairs(frag["toolchain"].entries)))]
    ensures !HasNote(frag, "toolchain") ==> LineOf(frag, slug, tag, "toolchain") == []
    ensures LineOf(frag, slug, tag, "deprecated") == [KeyEquals("deprecated", "false")]
    ensures LineOf(frag, slug, tag, "build_flags") == [KeyEquals("build_flags", FlagsText(frag["build_flags"].items))]
    ensures LineOf(frag, slug, tag, "capabilities")
         == [KeyEquals("capabilities", InlineText(Capabilities(frag["capabilities"].entries)))]
    ensures LineOf(frag, slug, tag, "download_url") == [KeyEquals("download_url", TomlString(DownloadUrl(frag, slug, tag)))]
  {
    hide TomlString, FlagsText, InlineText, DownloadUrl, InPlane0, KeyEquals, Capabilities, TextPairs;
  }

  method RenderVariant(frag: Fragment, slug: string, tag: string) returns (text: string)
    requires IsTextual(frag) && InPlane0(slug) && InPlane0(tag)
    ensures IsPrintableTable(TableOf(frag, slug, tag))
    ensures text == EmitBlock(TableOf(frag, slug, tag))
  {
    RenderedIsPrinted(frag, slug, tag);
    RenderedLines(frag, slug, tag);
    OtherLines(frag, slug, tag);
    TextLine(frag, slug, tag, "id");
    TextLine(frag, slug, tag, "description");
    TextLine(frag, slug, tag, "repo");
    TextLine(frag, slug, tag, "source_commit");
    TextLine(frag, slug, tag, "port");
    TextLine(frag, slug, tag, "board");
    TextLine(frag, slug, tag, "artifact");
    TextLine(frag, slug, tag, "artifact_sha256");
    NoteLine(frag, slug, tag, "source_commit_note");
    NoteLine(frag, slug, tag, "capabilities_note");
    NoteLine(frag, slug, tag, "notes");
    hide *;
    var lines := [HEADER];
    lines := lines + [KeyEquals("id", TomlString(frag["id"].s))];
    lines := lines + [KeyEquals("deprecated", "false")];
    lines := lines + [KeyEquals("description", TomlString(frag["description"].s))];
    lines := lines + [KeyEquals("repo", TomlString(frag["repo"].s))];
    lines := lines + [KeyEquals("source_commit", TomlString(frag["source_commit"].s))];
    ghost var before := lines;
    AppendNone(lines);
    if HasNote(frag, "source_commit_note") {
      lines := lines + [KeyEquals("source_commit_note", TomlString(frag["source_commit_note"].s))];
    }
    assert lines == before + LineOf(frag, slug, tag, "source_commit_note");
    lines := lines + [KeyEquals("port", TomlString(frag["port"].s))];
    lines := lines + [KeyEquals("board", TomlString(frag["board"].s))];
    lines := lines + [KeyEquals("build_flags", FlagsText(frag["build_flags"].items))];
    lines := lines + [KeyEquals("capabilities", InlineText(Capabilities(frag["capabilities"].entries)))];
    before := lines;
    AppendNone(lines);
    if HasNote(frag, "capabilities_note") {
      lines := lines + [KeyEquals("capabilities_note", TomlString(frag["capabilities_note"].s))];
    }
    assert lines == before + LineOf(frag, slug, tag, "capabilities_note");
    lines := lines + [KeyEquals("artifact", TomlString(frag["artifact"].s))];
    lines := lines + [KeyEquals("artifact_sha256", TomlString(frag["artifact_sha256"].s))];
    lines := lines + [KeyEquals("download_url", TomlString(DownloadUrl(frag, slug, tag)))];
    before := lines;
    AppendNone(lines);
    if HasNote(frag, "notes") {
      lines := lines + [KeyEquals("notes", TomlString(frag["notes"].s))];
    }
    assert lines == before + LineOf(frag, slug, tag, "notes");
    before := lines;
    AppendNone(lines);
    if HasNote(frag, "toolchain") {
      lines := lines + [KeyEquals("toolchain", InlineText(TextPairs(frag["toolchain"].entries)))];
    }
    assert lines == before + LineOf(frag, slug, tag, "toolchain");
    text := Join(lines, "\n") + "\n";
  }

  /** The tables of a list of fragments. */
  function Tables(fragments: seq<Fragment>, slug: string, tag: string): (tables: seq<Table>)
    requires forall i :: 0 <= i < |fragments| ==> IsTextual(fragments[i])
    ensures |tables| == |fragments|
    ensures forall i :: 0 <= i < |tables| ==> tables[i] == TableOf(fragments[i], slug, tag)
  {
    seq(|fragments|, i requires 0 <= i < |fragments| => TableOf(fragments[i], slug, tag))
  }

  lemma {:induction false} BlocksJoined(tables: seq<Table>, blocks: seq<string>)
    requires |blocks| == |tables|
    requires forall i :: 0 <= i < |tables| ==> IsPrintableTable(tables[i]) && blocks[i] == EmitBlock(tables[i])
    ensures Join(blocks, "\n") == EmitDocument(tables)
  {
    hide EmitBlock, IsPrintableTable;
    if |tables| > 1 {
      BlocksJoined(tables[1..], blocks[1..]);
    }
  }

  lemma ValidOnes(fragments: seq<Fragment>, expectIds: Option<set<string>>)
    requires IsValidSet(fragments, expectIds)
    ensures forall i :: 0 <= i < |fragments| ==> IsValid(fragments[i])
  {
  }

  /**
   The whole manifest. No fragments at all, or an invalid set of them, gives the problems; the text of a valid one
   reads back as the tables of its fragments, in order.
   */
  method Assemble(fragments: seq<Fragment>, slug: string, tag: string, expectIds: Option<set<string>>)
    returns (r: Result<string, seq<Problem>>)
    requires forall i :: 0 <= i < |fragments| && IsValid(fragments[i]) ==> IsTextual(fragments[i])
    requires InPlane0(slug) && InPlane0(tag)
    ensures r.Ok? <==> fragments != [] && IsValidSet(fragments, expectIds)
    ensures r.Ok? ==> ParseDocument(r.value) == Some(Tables(fragments, slug, tag))
    ensures r.Err? && fragments == [] ==> r.error == [NoFragments]
    ensures r.Err? && fragments != [] ==> forall p :: p in r.error <==> SetHasProblem(fragments, expectIds, p)
  {
    hide IsValid, IsTextual, TableOf, EmitBlock, IsPrintableTable, ParseDocument, DistinctIds, Ids, InPlane0, SetHasProblem,
         IsValidSet;
    if fragments == [] { return Err([NoFragments]); }
    var problems := ValidateFragmentSet(fragments, expectIds);
    if problems != [] { return Err(problems); }
    ValidOnes(fragments, expectIds);
    var blocks: seq<string> := [];
    var i := 0;
    while i < |fragments|
      invariant 0 <= i == |blocks| <= |fragments|
      invariant forall j :: 0 <= j < i ==>
                  IsPrintableTable(TableOf(fragments[j], slug, tag)) && blocks[j] == EmitBlock(TableOf(fragments[j], slug, tag))
    {
      var block := RenderVariant(fragments[i], slug, tag);
      blocks := blocks + [block];
      i := i + 1;
    }
    ghost var tables := Tables(fragments, slug, tag);
    BlocksJoined(tables, blocks);
    DocumentReadsBack(tables);
    r := Ok(Join(blocks, "\n"));
  }

  // ----- what a table holds -----

  /** `table.get(key)`. */
  function Get(table: Table, key: string): Option<Value> {
    if table == [] then None
    else
      var (k, v) := table[|table| - 1];
      if k == key then Some(v) else Get(table[..|table| - 1], key)
  }

  lemma {:induction false} CollectedGet(fields: seq<string>, values: seq<Option<Value>>, i: nat)
    requires |fields| == |values| && i < |fields|
    requires forall a, b :: 0 <= a < b < |fields| ==> fields[a] != fields[b]
    ensures Get(Collect(fields, values), fields[i]) == values[i]
  {
    var n := |fields| - 1;
    var before := Collect(fields[..n], values[..n]);
    assert values[n].Some? ==> Collect(fields, values)[..|before|] == before;
    assert values[n].None? ==> Collect(fields, values) == before;
    if i < n {
      CollectedGet(fields[..n], values[..n], i);
    } else {
      NotCollected(fields[..n], values[..n], fields[n]);
    }
  }

  lemma {:induction false} NotCollected(fields: seq<string>, values: seq<Option<Value>>, key: string)
    requires |fields| == |values| && key !in fields
    ensures Get(Collect(fields, values), key) == None
  {
    if fields != [] {
      var n := |fields| - 1;
      var before := Collect(fields[..n], values[..n]);
      assert values[n].Some? ==> Collect(fields, values)[..|before|] == before;
      assert values[n].None? ==> Collect(fields, values) == before;
      NotCollected(fields[..n], values[..n], key);
    }
  }

  /** Looking a key up in the table of a fragment gives the field's value, and nothing for other keys. */
  lemma TableGet(frag: Fragment, slug: string, tag: string, key: string)
    requires IsTextual(frag)
    ensures Get(TableOf(frag, slug, tag), key) == if key in FIELDS then ValueOf(frag, slug, tag, key) else None
  {
    FieldsDistinct();
    hide IsTextual, ValueOf, Collect, Get;
    var values := Values(frag, slug, tag);
    if key in FIELDS {
      var i :| 0 <= i < |FIELDS| && FIELDS[i] == key;
      CollectedGet(FIELDS, values, i);
    } else {
      NotCollected(FIELDS, values, key);
    }
  }

  /** Every field of a fragment is in its table, the notes and the toolchain when they are there and not empty. */
  lemma TableHolds(frag: Fragment, slug: string, tag: string, key: string)
    requires IsTextual(frag)
    ensures var v := Get(TableOf(frag, slug, tag), key);
            && (key in ["id", "description", "repo", "source_commit", "port", "board", "artifact", "artifact_sha256"] ==>
                  key in frag && frag[key].JStr? && v == Some(Str(frag[key].s)))
            && (key in ["source_commit_note", "capabilities_note", "notes"] ==>
                  if key in frag && Truthy(frag[key]) then frag[key].JStr? && v == Some(Str(frag[key].s)) else v == None)
            && (key == "deprecated" ==> v == Some(Bool(false)))
            && (key == "build_flags" ==>
                  v.Some? && v.value.Arr? && |v.value.items| == |frag[key].items|
                  && forall i :: 0 <= i < |v.value.items| ==>
                        v.value.items[i].Str? && frag[key].items[i] == JStr(v.value.items[i].s))
            && (key == "capabilities" ==>
                  v.Some? && v.value.Tbl? && |v.value.entries| == |frag[key].entries|
                  && forall i :: 0 <= i < |v.value.entries| ==> SameEntry(v.value.entries[i], frag[key].entries[i]))
            && (key == "toolchain" ==>
                  if key in frag && Truthy(frag[key]) then
                    v.Some? && v.value.Tbl? && |v.value.entries| == |frag[key].entries|
                    && forall i :: 0 <= i < |v.value.entries| ==> SameEntry(v.value.entries[i], frag[key].entries[i])
                  else v == None)
  {
    TableGet(frag, slug, tag, key);
    FieldKinds(key);
    hide TableOf, Get, DownloadUrl, InPlane0, Truthy, IsBareKey;
    if key in TEXT_FIELDS {
      var i :| 0 <= i < |TEXT_FIELDS| && TEXT_FIELDS[i] == key;
      assert IsText(frag, TEXT_FIELDS[i]);
    }
    if key in NOTE_FIELDS {
      var i :| 0 <= i < |NOTE_FIELDS| && NOTE_FIELDS[i] == key;
      assert IsNote(frag, NOTE_FIELDS[i]);
    }
  }

  /** An entry of a table says what the fragment's does: the same text, or the same truth value. */
  predicate SameEntry(entry: (string, Value), of: (string, Json)) {
    entry.0 == of.0 && match entry.1
                       case Str(s) => of.1 == JStr(s)
                       case Bool(b) => of.1 == JBool(b)
                       case _ => false
  }

  lemma FieldKinds(key: string)
    ensures key in TEXT_FIELDS <==> key in ["id", "description", "repo", "source_commit", "port", "board", "artifact", "artifact_sha256"]
    ensures key in NOTE_FIELDS <==> key in ["source_commit_note", "capabilities_note", "notes"]
    ensures key in FIELDS <==> key in TEXT_FIELDS || key in NOTE_FIELDS
                               || key in ["deprecated", "build_flags", "capabilities", "download_url", "toolchain"]
  {
  }
}
