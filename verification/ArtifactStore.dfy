/**
 The artifacts on disk that `firmware.py` fetches, selects and verifies. The file system is a map
 from resolved paths to files, the digest an arbitrary function of the contents, and what the
 network and the operating system do is fixed beforehand for each command.
 */
module ArtifactStore {
  import opened Wrappers
  import opened Text
  import opened Toml
  import opened Manifest
  import Selection

  /** The segments of a resolved absolute path. */
  type Path = seq<string>

  datatype File = File(content: string, executable: bool)

  type Files = map<Path, File>

  datatype Variant = Variant(id: string, artifact: string, sha256: string, url: string, isUnix: bool, deprecated: bool)

  /** The directory of the manifest, the digest, and the tables of the manifest. */
  datatype Setting = Setting(base: Path, digest: string -> string, tables: seq<Table>)

  /**
   How a download goes: no directory for it, no response or no temporary file, a transfer that
   breaks off with `written` in the temporary file, or a whole body, after which changing the mode
   and replacing the artifact may still fail.
   */
  datatype Download = NoDirectory | NoResponse | CutShort(written: string) | Body(body: string, chmods: bool, renames: bool)

  /** What one command meets: whether the mode of a file present can be changed, and the download. */
  datatype World = World(chmods: bool, download: Download)

  // ----- paths -----

  /** A path without empty steps, steps in place and steps up. */
  function Resolve(segments: seq<string>): Path {
    if segments == [] then []
    else
      var n := |segments| - 1;
      var (front, last) := (Resolve(segments[..n]), segments[n]);
      if last == "" || last == "." then front
      else if last == ".." then if front == [] then [] else front[..|front| - 1]
      else front + [last]
  }

  predicate IsResolved(p: Path) {
    forall i :: 0 <= i < |p| ==> p[i] !in ["", ".", ".."]
  }

  /** The path of an artifact; None for one outside the directory of the manifest. */
  function ArtifactPath(base: Path, artifact: string): (r: Option<Path>)
    ensures r.Some? ==> base <= r.value
  {
    var pieces := Split(artifact, "/");
    var p := Resolve(if StartsWith(artifact, "/") then pieces else base + pieces);
    if base <= p then Some(p) else None
  }

  lemma {:induction false} ResolvedStays(p: Path)
    requires IsResolved(p)
    ensures Resolve(p) == p
  {
    if p != [] {
      ResolvedStays(p[..|p| - 1]);
    }
  }

  lemma {:induction false} ResolveBelow(base: Path, pieces: seq<string>)
    requires IsResolved(base) && ".." !in pieces
    ensures base <= Resolve(base + pieces)
  {
    if pieces == [] {
      assert base + pieces == base;
      ResolvedStays(base);
    } else {
      var n := |pieces| - 1;
      ResolveBelow(base, pieces[..n]);
      assert (base + pieces)[..|base + pieces| - 1] == base + pieces[..n];
    }
  }

  /** An artifact that the generator's validation accepts is inside the directory of the manifest. */
  lemma ValidatedIsInside(base: Path, artifact: string)
    requires IsResolved(base) && IsRelativePath(JStr(artifact))
    ensures ArtifactPath(base, artifact).Some?
  {
    assert !StartsWith(artifact, "/") by {
      assert artifact[0..1][0] == artifact[0];
    }
    ResolveBelow(base, Split(artifact, "/"));
  }

  lemma {:induction false} ResolveBehind(base: Path, pieces: seq<string>)
    requires IsResolved(pieces)
    ensures Resolve(base + pieces) == Resolve(base) + pieces
  {
    if pieces == [] {
      assert base + pieces == base;
    } else {
      var n := |pieces| - 1;
      ResolveBehind(base, pieces[..n]);
      assert (base + pieces)[..|base + pieces| - 1] == base + pieces[..n];
      assert (base + pieces)[|base + pieces| - 1] == pieces[n];
    }
  }

  predicate AreSteps(steps: seq<string>) {
    steps != [] && IsResolved(steps) && forall i :: 0 <= i < |steps| ==> '/' !in steps[i]
  }

  lemma SplitSteps(first: string, steps: seq<string>)
    requires AreSteps(steps) && '/' !in first
    ensures Split(Join(steps, "/"), "/") == steps
    ensures Split(first + ("/" + Join(steps, "/")), "/") == [first] + steps
  {
    SplitJoined(steps, '/');
    SplitJoined([first] + steps, '/');
    assert ([first] + steps)[1..] == steps;
  }

  /** An artifact is found where its steps lead from the directory of the manifest. */
  lemma PlainArtifact(base: Path, steps: seq<string>)
    requires IsResolved(base) && AreSteps(steps)
    ensures ArtifactPath(base, Join(steps, "/")) == Some(base + steps)
  {
    var artifact := Join(steps, "/");
    SplitSteps(".", steps);
    assert artifact[0] == steps[0][0];
    hide Split, Join;
    NotAt(artifact, "/", 0);
    ResolvedStays(base);
    hide Resolve, IsResolved;
    ResolveBehind(base, steps);
  }

  /** A step in place leads nowhere else. */
  lemma StepInPlace(base: Path, steps: seq<string>)
    requires IsResolved(base) && AreSteps(steps)
    ensures ArtifactPath(base, "./" + Join(steps, "/")) == Some(base + steps)
  {
    var artifact := Join(steps, "/");
    SplitSteps(".", steps);
    assert "." + ("/" + artifact) == "./" + artifact;
    hide Split, Join;
    NotAt("./" + artifact, "/", 0);
    ResolvedStays(base);
    assert Resolve(base + ["."]) == base by { assert (base + ["."])[..|base|] == base; }
    hide Resolve, IsResolved;
    ResolveBehind(base + ["."], steps);
    Associative(base, ["."], steps);
  }

  /** One step up leads out of the directory, unless the way comes back into it. */
  lemma StepUpRefused(base: Path, steps: seq<string>)
    requires IsResolved(base) && base != [] && AreSteps(steps)
    ensures ArtifactPath(base, "../" + Join(steps, "/"))
         == if steps[0] == base[|base| - 1] then Some(base + steps[1..]) else None
  {
    var artifact, n := Join(steps, "/"), |base| - 1;
    SplitSteps("..", steps);
    assert ".." + ("/" + artifact) == "../" + artifact;
    hide Split, Join, IsResolved;
    NotAt("../" + artifact, "/", 0);
    ResolvedStays(base);
    assert Resolve(base + [".."]) == base[..n] by { assert (base + [".."])[..|base|] == base; }
    hide Resolve;
    ResolveBehind(base + [".."], steps);
    Associative(base, [".."], steps);
    ComesBack(base, steps);
  }

  /** An absolute path is taken as it is. */
  lemma AbsoluteArtifact(base: Path, steps: seq<string>)
    requires IsResolved(base) && AreSteps(steps)
    ensures ArtifactPath(base, "/" + Join(steps, "/")) == if base <= steps then Some(steps) else None
  {
    var artifact := Join(steps, "/");
    SplitSteps("", steps);
    assert "" + ("/" + artifact) == "/" + artifact;
    hide Split, Join, IsResolved;
    assert ("/" + artifact)[0..1] == "/";
    assert Resolve([""]) == [] by { assert [""][..0] == []; }
    hide Resolve;
    ResolveBehind([""], steps);
    assert [] + steps == steps;
  }

  lemma ComesBack(base: Path, steps: Path)
    requires base != [] && steps != []
    ensures var n := |base| - 1;
            (base <= base[..n] + steps <==> steps[0] == base[n]) && (steps[0] == base[n] ==> base[..n] + steps == base + steps[1..])
  {
    var n := |base| - 1;
    assert (base[..n] + steps)[n] == steps[0];
    assert base == base[..n] + [base[n]];
    if steps[0] == base[n] {
      assert steps == [base[n]] + steps[1..];
    }
  }

  /** The temporary file beside an artifact. */
  function PartOf(p: Path): (part: Path)
    requires p != []
    ensures part != p && |part| == |p| && part[..|p| - 1] == p[..|p| - 1]
    ensures part[|p| - 1] == p[|p| - 1] + ".part"
  {
    var name := p[|p| - 1] + ".part";
    var part := p[..|p| - 1] + [name];
    assert |part[|p| - 1]| == |p[|p| - 1]| + 5;
    part
  }

  // ----- variants -----

  function TextAt(table: Table, key: string, default: string): string {
    match Get(table, key)
    case Some(Str(s)) => s
    case _ => default
  }

  predicate HasTextAt(table: Table, key: string) {
    var v := Get(table, key);
    v.Some? && v.value.Str?
  }

  /** The fields without which the tool fails on a table. */
  predicate IsUsable(table: Table) {
    HasTextAt(table, "id") && HasTextAt(table, "artifact") && HasTextAt(table, "artifact_sha256")
  }

  function VariantOf(table: Table): Variant {
    Variant(TextAt(table, "id", ""), TextAt(table, "artifact", ""), TextAt(table, "artifact_sha256", ""),
            TextAt(table, "download_url", ""), Get(table, "port") == Some(Str("unix")), Selection.IsDeprecated(table))
  }

  lemma TextFieldGet(frag: Fragment, slug: string, tag: string, field: string)
    requires IsTextual(frag) && field in TEXT_FIELDS && field in FIELDS
    ensures IsText(frag, field) && Get(TableOf(frag, slug, tag), field) == Some(Str(frag[field].s))
  {
    var i :| 0 <= i < |TEXT_FIELDS| && TEXT_FIELDS[i] == field;
    assert IsText(frag, TEXT_FIELDS[i]);
    TableGet(frag, slug, tag, field);
  }

  /** What the tool reads from the table of a generated manifest is what the fragment says. */
  lemma GeneratedVariant(frag: Fragment, slug: string, tag: string)
    requires IsTextual(frag)
    ensures var table := TableOf(frag, slug, tag);
            && IsUsable(table)
            && IsText(frag, "id") && IsText(frag, "artifact") && IsText(frag, "artifact_sha256") && IsText(frag, "port")
            && IsText(frag, "release_asset")
            && VariantOf(table) == Variant(frag["id"].s, frag["artifact"].s, frag["artifact_sha256"].s,
                                           DownloadUrl(frag, slug, tag), frag["port"].s == "unix", false)
  {
    hide DownloadUrl, InPlane0, TableOf, Get;
    TextFieldGet(frag, slug, tag, "id");
    TextFieldGet(frag, slug, tag, "artifact");
    TextFieldGet(frag, slug, tag, "artifact_sha256");
    TextFieldGet(frag, slug, tag, "port");
    TableGet(frag, slug, tag, "download_url");
    TableGet(frag, slug, tag, "deprecated");
    assert "download_url" in FIELDS && "deprecated" in FIELDS;
    hide IsTextual;
  }

  predicate IsPlaceholder(url: string) {
    url == "" || StartsWith(url, "TODO://")
  }

  /** The first table with the id. */
  function FindVariant(tables: seq<Table>, id: string): (r: Option<Variant>)
    ensures r.Some? ==> r.value.id == id && exists i :: 0 <= i < |tables| && r.value == VariantOf(tables[i])
    ensures r.None? ==> forall i :: 0 <= i < |tables| ==> VariantOf(tables[i]).id != id
  {
    if tables == [] then None
    else if VariantOf(tables[0]).id == id then Some(VariantOf(tables[0]))
    else FindVariant(tables[1..], id)
  }

  // ----- the state of an artifact -----

  predicate Matches(s: Setting, files: Files, v: Variant) {
    var p := ArtifactPath(s.base, v.artifact);
    p.Some? && p.value in files && s.digest(files[p.value].content) == v.sha256
  }

  /** What a successful fetch or selection promises of a variant. */
  predicate IsReady(s: Setting, files: Files, v: Variant) {
    Matches(s, files, v) && (v.isUnix ==> files[ArtifactPath(s.base, v.artifact).value].executable)
  }

  // ----- the meaning of the commands -----

  datatype Placing = Placed | Mismatch | Failed

  /** The file that a whole body becomes. */
  function Arrived(files: Files, v: Variant, part: Path, body: string): File {
    File(body, v.isUnix || (part in files && files[part].executable))
  }

  function PlacingOf(s: Setting, files: Files, v: Variant, p: Path, d: Download): Placing
    requires p != []
  {
    match d
    case Body(body, chmods, renames) =>
      if s.digest(body) != v.sha256 then Mismatch
      else if v.isUnix && !(PartOf(p) in files && files[PartOf(p)].executable) && !chmods then Failed
      else if !renames then Failed
      else Placed
    case _ => Failed
  }

  /** The files after a download: the artifact is replaced as a whole, or not touched. */
  function Downloaded(s: Setting, files: Files, v: Variant, p: Path, d: Download): Files
    requires p != []
  {
    if d.NoDirectory? then files
    else if PlacingOf(s, files, v, p, d).Placed? then (files - {PartOf(p)})[p := Arrived(files, v, PartOf(p), d.body)]
    else files - {PartOf(p)}
  }

  /** Setting the execute bit of a file that is present, and the exit code. */
  function MadeExecutable(files: Files, v: Variant, p: Path, chmods: bool): (Files, int)
    requires p in files
  {
    if !v.isUnix || files[p].executable then (files, 0)
    else if chmods then (files[p := files[p].(executable := true)], 0)
    else (files, 1)
  }

  function Fetched(s: Setting, files: Files, v: Variant, force: bool, w: World): (Files, int)
    requires s.base != []
  {
    match ArtifactPath(s.base, v.artifact)
    case None => (files, 1)
    case Some(p) =>
      if Matches(s, files, v) && !force then MadeExecutable(files, v, p, w.chmods)
      else if IsPlaceholder(v.url) then (files, 2)
      else (Downloaded(s, files, v, p, w.download), if PlacingOf(s, files, v, p, w.download).Placed? then 0 else 1)
  }

  function Resolved(s: Setting, files: Files, v: Variant, w: World): (Files, int)
    requires s.base != []
  {
    match ArtifactPath(s.base, v.artifact)
    case None => (files, 1)
    case Some(p) =>
      if p in files then if Matches(s, files, v) then MadeExecutable(files, v, p, w.chmods) else (files, 2)
      else if IsPlaceholder(v.url) then (files, 2)
      else
        (Downloaded(s, files, v, p, w.download),
         match PlacingOf(s, files, v, p, w.download) case Placed => 0 case Mismatch => 2 case Failed => 1)
  }

  datatype Command =
    | Fetch(id: string, force: bool)
    | Select(need: string, port: Option<string>, board: Option<string>)
    | Verify(ids: seq<string>)

  /** The one variant a query selects, or the exit code of a query that does not select one. */
  function Chosen(s: Setting, need: string, port: Option<string>, board: Option<string>): (r: Result<Variant, int>)
    ensures r.Err? ==> r.error != 0
  {
    match Selection.ParseNeed(need)
    case Err(_) => Err(2)
    case Ok(keys) =>
      var matches := Selection.Matches(Selection.Candidates(s.tables, port, board), keys);
      if |matches| == 1 then Ok(VariantOf(matches[0])) else Err(1)
  }

  /** A named artifact has to be there and to match. */
  predicate NamedVerifies(s: Setting, files: Files, id: string) {
    var v := FindVariant(s.tables, id);
    v.Some? && Matches(s, files, v.value)
  }

  /** Without names, a deprecated variant and one that is not there are passed over. */
  predicate TableVerifies(s: Setting, files: Files, v: Variant) {
    v.deprecated ||
    (var p := ArtifactPath(s.base, v.artifact);
     p.Some? && (p.value in files ==> Matches(s, files, v)))
  }

  predicate Verifies(s: Setting, files: Files, ids: seq<string>) {
    if ids != [] then forall i :: 0 <= i < |ids| ==> NamedVerifies(s, files, ids[i])
    else forall i :: 0 <= i < |s.tables| ==> TableVerifies(s, files, VariantOf(s.tables[i]))
  }

  /** The files after a command, and its exit code. */
  function Step(s: Setting, files: Files, c: Command, w: World): (Files, int)
    requires s.base != []
  {
    match c
    case Fetch(id, force) =>
      (match FindVariant(s.tables, id)
       case None => (files, 1)
       case Some(v) => Fetched(s, files, v, force, w))
    case Select(need, port, board) =>
      (match Chosen(s, need, port, board)
       case Err(code) => (files, code)
       case Ok(v) => Resolved(s, files, v, w))
    case Verify(ids) => (files, if Verifies(s, files, ids) then 0 else 1)
  }

  function Run(s: Setting, files: Files, commands: seq<(Command, World)>): Files
    requires s.base != []
    decreases |commands|
  {
    if commands == [] then files
    else Run(s, Step(s, files, commands[0].0, commands[0].1).0, commands[1..])
  }

  // ----- what holds after every command -----

  function PathAt(s: Setting, i: nat): Option<Path>
    requires i < |s.tables|
  {
    ArtifactPath(s.base, VariantOf(s.tables[i]).artifact)
  }

  /** The command works on the artifact of table `i`, or, for None, on no file. */
  ghost predicate WorksOn(s: Setting, c: Command, i: Option<nat>) {
    match c
    case Fetch(id, _) =>
      (match FindVariant(s.tables, id)
       case None => i.None?
       case Some(v) => i.Some? && i.value < |s.tables| && VariantOf(s.tables[i.value]) == v)
    case Select(need, port, board) =>
      (match Chosen(s, need, port, board)
       case Err(_) => i.None?
       case Ok(v) => i.Some? && i.value < |s.tables| && VariantOf(s.tables[i.value]) == v)
    case Verify(_) => i.None?
  }

  lemma WhichTable(s: Setting, c: Command) returns (i: Option<nat>)
    ensures WorksOn(s, c, i)
  {
    match c
    case Fetch(id, _) =>
      var v := FindVariant(s.tables, id);
      if v.Some? {
        var k :| 0 <= k < |s.tables| && v.value == VariantOf(s.tables[k]);
        i := Some(k);
      } else {
        i := None;
      }
    case Select(need, port, board) =>
      if Chosen(s, need, port, board).Ok? {
        var keys := Selection.ParseNeed(need).value;
        var chosen := Selection.Matches(Selection.Candidates(s.tables, port, board), keys)[0];
        Selection.SelectedFits(s.tables, keys, port, board, chosen);
        var k :| 0 <= k < |s.tables| && s.tables[k] == chosen;
        i := Some(k);
      } else {
        i := None;
      }
    case Verify(_) => i := None;
  }

  /** How a command may change the files, given the variant it works on. */
  ghost predicate ChangesOnly(s: Setting, v: Variant, files: Files, after: Files)
    requires s.base != []
  {
    match ArtifactPath(s.base, v.artifact)
    case None => after == files
    case Some(p) =>
      && (after == files || after == files - {PartOf(p)}
          || (p in after && s.digest(after[p].content) == v.sha256
              && (after - {p} == files - {p} || after - {p} == files - {p, PartOf(p)})))
  }

  lemma DownloadChanges(s: Setting, files: Files, v: Variant, p: Path, d: Download)
    requires s.base != [] && ArtifactPath(s.base, v.artifact) == Some(p)
    ensures ChangesOnly(s, v, files, Downloaded(s, files, v, p, d))
    ensures PlacingOf(s, files, v, p, d).Placed? ==> IsReady(s, Downloaded(s, files, v, p, d), v)
    ensures !PlacingOf(s, files, v, p, d).Placed? ==> Downloaded(s, files, v, p, d) in [files, files - {PartOf(p)}]
  {
    var after := Downloaded(s, files, v, p, d);
    if PlacingOf(s, files, v, p, d).Placed? {
      assert after - {p} == files - {p, PartOf(p)};
    }
  }

  lemma ExecutableChanges(s: Setting, files: Files, v: Variant, p: Path, chmods: bool)
    requires s.base != [] && ArtifactPath(s.base, v.artifact) == Some(p) && Matches(s, files, v)
    ensures var (after, code) := MadeExecutable(files, v, p, chmods);
            ChangesOnly(s, v, files, after) && (code == 0 ==> IsReady(s, after, v)) && (code != 0 ==> after == files)
  {
    var after := MadeExecutable(files, v, p, chmods).0;
    assert after - {p} == files - {p};
  }

  /**
   What a single command does to the files: at most the artifact it works on is replaced, by one
   that matches; of the others only that artifact's temporary file can disappear. A command that
   fails replaces nothing; one that succeeds leaves its artifact ready.
   */
  lemma StepChanges(s: Setting, files: Files, c: Command, w: World, i: Option<nat>)
    requires s.base != [] && WorksOn(s, c, i)
    ensures var (after, code) := Step(s, files, c, w);
            match i
            case None => after == files && (c.Verify? || code != 0)
            case Some(k) =>
              var v := VariantOf(s.tables[k]);
              && ChangesOnly(s, v, files, after)
              && (code == 0 ==> IsReady(s, after, v))
              && (code != 0 ==> after == files
                                || (PathAt(s, k).Some? && after == files - {PartOf(PathAt(s, k).value)}))
  {
    hide Downloaded, PlacingOf, MadeExecutable, ChangesOnly, IsReady, ArtifactPath, Chosen, FindVariant, VariantOf;
    if i.Some? {
      var v := VariantOf(s.tables[i.value]);
      var path := ArtifactPath(s.base, v.artifact);
      NoChange(s, v, files);
      if path.Some? {
        var p := path.value;
        DownloadChanges(s, files, v, p, w.download);
        if Matches(s, files, v) {
          ExecutableChanges(s, files, v, p, w.chmods);
        }
      }
    }
  }

  lemma NoChange(s: Setting, v: Variant, files: Files)
    requires s.base != []
    ensures ChangesOnly(s, v, files, files)
  {
  }

  /** Files other than the artifact and its temporary file stay as they are. */
  lemma OthersStay(s: Setting, v: Variant, files: Files, after: Files, p: Path, q: Path)
    requires s.base != [] && ArtifactPath(s.base, v.artifact) == Some(p) && ChangesOnly(s, v, files, after)
    requires q != p && q != PartOf(p)
    ensures (q in after <==> q in files) && (q in files ==> after[q] == files[q])
  {
    hide ArtifactPath, PartOf;
    assert after != files && after != files - {PartOf(p)} ==>
        (q in after - {p} <==> q in after) && (q in files - {p} <==> q in files) && (q in files - {p, PartOf(p)} <==> q in files);
    assert q in files ==> files[q] == (files - {p})[q] && files[q] == (files - {p, PartOf(p)})[q];
    assert q in after ==> after[q] == (after - {p})[q];
  }

  lemma PartMayGo(s: Setting, v: Variant, files: Files, after: Files, p: Path)
    requires s.base != [] && ArtifactPath(s.base, v.artifact) == Some(p) && ChangesOnly(s, v, files, after)
    requires PartOf(p) !in files
    ensures PartOf(p) !in after
  {
    hide ArtifactPath;
    var q := PartOf(p);
    assert q !in files - {p} && q !in files - {p, q};
    assert q in after ==> q in after - {p};
  }

  // ----- which variants are safe from each other -----

  /** The command resolves to the variant. */
  predicate AimsAt(s: Setting, c: Command, v: Variant) {
    match c
    case Fetch(id, _) => FindVariant(s.tables, id) == Some(v)
    case Select(need, port, board) => Chosen(s, need, port, board) == Ok(v)
    case Verify(_) => false
  }

  ghost predicate IsReached(s: Setting, v: Variant) {
    exists c :: AimsAt(s, c, v)
  }

  /** Some file has the digest. */
  ghost predicate IsAttainable(s: Setting, sha256: string) {
    exists body :: s.digest(body) == sha256
  }

  predicate CanDownload(s: Setting, v: Variant) {
    ArtifactPath(s.base, v.artifact).Some? && !IsPlaceholder(v.url)
  }

  /**
   A download for `v` can take the artifact of `u` away: `u` has the file `v` is downloaded to as its
   own; or it has the same file, to which a fetch of `v` brings contents with another digest.
   */
  ghost predicate Clashes(s: Setting, v: Variant, u: Variant)
    requires s.base != []
  {
    var p, q := ArtifactPath(s.base, v.artifact), ArtifactPath(s.base, u.artifact);
    && CanDownload(s, v) && q.Some? && IsAttainable(s, u.sha256)
    && (TakesPart(s, v, p.value, q.value) || TakesFile(s, v, u, p.value, q.value))
  }

  ghost predicate TakesPart(s: Setting, v: Variant, p: Path, q: Path)
    requires p != []
  {
    q == PartOf(p) && IsReached(s, v)
  }

  ghost predicate TakesFile(s: Setting, v: Variant, u: Variant, p: Path, q: Path) {
    q == p && v.sha256 != u.sha256 && IsAttainable(s, v.sha256) && AimsAt(s, Fetch(v.id, true), v)
  }

  ghost predicate Apart(s: Setting)
    requires s.base != []
  {
    forall i, j :: 0 <= i < |s.tables| && 0 <= j < |s.tables| ==> !Clashes(s, VariantOf(s.tables[i]), VariantOf(s.tables[j]))
  }

  predicate SameContents(files: Files, after: Files) {
    after.Keys == files.Keys && forall q :: q in files ==> after[q].content == files[q].content
  }

  lemma SameFiles(files: Files)
    ensures SameContents(files, files)
  {
  }

  lemma ExecutableKeeps(files: Files, v: Variant, p: Path, chmods: bool)
    requires p in files
    ensures SameContents(files, MadeExecutable(files, v, p, chmods).0)
  {
  }

  /** A command leaves all contents alone, or downloads; a selection downloads only what is not there. */
  lemma StepKinds(s: Setting, files: Files, c: Command, w: World, v: Variant)
    requires s.base != [] && AimsAt(s, c, v)
    ensures var after := Step(s, files, c, w).0;
            SameContents(files, after)
            || (CanDownload(s, v)
                && var p := ArtifactPath(s.base, v.artifact).value;
                   after == Downloaded(s, files, v, p, w.download) && (c.Select? ==> p !in files))
  {
    hide SameContents, Downloaded, PlacingOf, MadeExecutable, FindVariant, Chosen, ArtifactPath, IsPlaceholder;
    SameFiles(files);
    var path := ArtifactPath(s.base, v.artifact);
    if path.Some? && path.value in files {
      ExecutableKeeps(files, v, path.value, w.chmods);
    }
  }

  lemma AimIsTable(s: Setting, c: Command, v: Variant) returns (i: nat)
    requires AimsAt(s, c, v)
    ensures i < |s.tables| && VariantOf(s.tables[i]) == v
  {
    var k := WhichTable(s, c);
    i := k.value;
  }

  lemma NoAimNoChange(s: Setting, files: Files, c: Command, w: World)
    requires s.base != [] && forall v :: !AimsAt(s, c, v)
    ensures Step(s, files, c, w).0 == files
  {
    match c
    case Fetch(id, _) =>
      if FindVariant(s.tables, id).Some? { assert AimsAt(s, c, FindVariant(s.tables, id).value); }
    case Select(need, port, board) =>
      if Chosen(s, need, port, board).Ok? { assert AimsAt(s, c, Chosen(s, need, port, board).value); }
    case Verify(_) =>
  }

  lemma MatchesStays(s: Setting, files: Files, after: Files, u: Variant)
    requires Matches(s, files, u) && SameContents(files, after)
    ensures Matches(s, after, u)
  {
  }

  /** A download for a variant that does not clash with `u` leaves `u` matching. */
  lemma DownloadKeeps(s: Setting, files: Files, c: Command, v: Variant, p: Path, d: Download, u: Variant)
    requires s.base != [] && AimsAt(s, c, v) && CanDownload(s, v) && ArtifactPath(s.base, v.artifact) == Some(p)
    requires !Clashes(s, v, u) && Matches(s, files, u) && (c.Select? ==> p !in files)
    ensures Matches(s, Downloaded(s, files, v, p, d), u)
  {
    var q := ArtifactPath(s.base, u.artifact).value;
    var after := Downloaded(s, files, v, p, d);
    assert s.digest(files[q].content) == u.sha256;
    assert IsAttainable(s, u.sha256);
    DownloadChanges(s, files, v, p, d);
    hide ArtifactPath, PartOf, FindVariant, Chosen, IsPlaceholder, IsReady;
    if q != p {
      assert q != PartOf(p);
      OthersStay(s, v, files, after, p, q);
    } else if v.sha256 != u.sha256 {
      assert c.Fetch?;
      FetchesByItsId(s, c, v);
      assert !IsAttainable(s, v.sha256);
      assert !PlacingOf(s, files, v, p, d).Placed?;
      assert after == files || after == files - {PartOf(p)};
    } else {
      assert after == files || after == files - {PartOf(p)} || (p in after && s.digest(after[p].content) == v.sha256);
    }
  }

  lemma FetchesByItsId(s: Setting, c: Command, v: Variant)
    requires c.Fetch? && AimsAt(s, c, v)
    ensures AimsAt(s, Fetch(v.id, true), v)
  {
  }

  /** An artifact that matches its manifest entry still does after any command, when the variants are apart. */
  lemma StepKeeps(s: Setting, files: Files, c: Command, w: World, j: nat)
    requires s.base != [] && Apart(s) && j < |s.tables| && Matches(s, files, VariantOf(s.tables[j]))
    ensures Matches(s, Step(s, files, c, w).0, VariantOf(s.tables[j]))
  {
    hide Step, Matches, Clashes, CanDownload, VariantOf, AimsAt, SameContents, Downloaded, ArtifactPath;
    if v :| AimsAt(s, c, v) {
      var i := AimIsTable(s, c, v);
      StepKinds(s, files, c, w, v);
      var u, after := VariantOf(s.tables[j]), Step(s, files, c, w).0;
      if SameContents(files, after) {
        MatchesStays(s, files, after, u);
      } else {
        PathOfDownload(s, v);
        var p := ArtifactPath(s.base, v.artifact).value;
        DownloadKeeps(s, files, c, v, p, w.download, u);
      }
    } else {
      NoAimNoChange(s, files, c, w);
    }
  }

  lemma PathOfDownload(s: Setting, v: Variant)
    requires CanDownload(s, v)
    ensures ArtifactPath(s.base, v.artifact).Some?
  {
  }

  /** ... and after any run of commands. */
  lemma {:induction false} RunKeeps(s: Setting, files: Files, commands: seq<(Command, World)>, j: nat)
    requires s.base != [] && Apart(s) && j < |s.tables| && Matches(s, files, VariantOf(s.tables[j]))
    ensures Matches(s, Run(s, files, commands), VariantOf(s.tables[j]))
    decreases |commands|
  {
    hide Step, Matches, Apart;
    if commands != [] {
      StepKeeps(s, files, commands[0].0, commands[0].1, j);
      RunKeeps(s, Step(s, files, commands[0].0, commands[0].1).0, commands[1..], j);
    }
  }

  /** The path of some artifact. */
  ghost predicate IsArtifact(s: Setting, q: Path) {
    exists i :: 0 <= i < |s.tables| && PathAt(s, i) == Some(q)
  }

  /** No command leaves a new file that is no artifact: no temporary file survives. */
  lemma StepLeavesNothing(s: Setting, files: Files, c: Command, w: World, q: Path)
    requires s.base != [] && !IsArtifact(s, q) && q !in files
    ensures q !in Step(s, files, c, w).0
  {
    var i := WhichTable(s, c);
    StepChanges(s, files, c, w, i);
    hide Step, FindVariant, Chosen, VariantOf, ArtifactPath, IsReady, ChangesOnly, PartOf;
    if i.Some? {
      var v, after := VariantOf(s.tables[i.value]), Step(s, files, c, w).0;
      var path := PathAt(s, i.value);
      if path.Some? {
        if q == PartOf(path.value) {
          PartMayGo(s, v, files, after, path.value);
        } else {
          OthersStay(s, v, files, after, path.value, q);
        }
      } else {
        NowhereToGo(s, v, files, after);
      }
    }
  }

  lemma NowhereToGo(s: Setting, v: Variant, files: Files, after: Files)
    requires s.base != [] && ArtifactPath(s.base, v.artifact).None? && ChangesOnly(s, v, files, after)
    ensures after == files
  {
  }

  lemma {:induction false} RunLeavesNothing(s: Setting, files: Files, commands: seq<(Command, World)>, q: Path)
    requires s.base != [] && !IsArtifact(s, q) && q !in files
    ensures q !in Run(s, files, commands)
    decreases |commands|
  {
    hide Step, IsArtifact;
    if commands != [] {
      StepLeavesNothing(s, files, commands[0].0, commands[0].1, q);
      RunLeavesNothing(s, Step(s, files, commands[0].0, commands[0].1).0, commands[1..], q);
    }
  }

  /** A selection that succeeds has found the only variant that fits the query, and its artifact is ready. */
  lemma SelectSucceeds(s: Setting, files: Files, need: string, port: Option<string>, board: Option<string>, w: World)
    requires s.base != [] && Step(s, files, Select(need, port, board), w).1 == 0
    ensures var keys := Selection.ParseNeed(need);
            && keys.Ok?
            && var matches := Selection.Matches(Selection.Candidates(s.tables, port, board), keys.value);
            && |matches| == 1
            && IsReady(s, Step(s, files, Select(need, port, board), w).0, VariantOf(matches[0]))
  {
    var c := Select(need, port, board);
    var i := WhichTable(s, c);
    StepChanges(s, files, c, w, i);
    hide IsReady, Resolved, VariantOf, Selection.Matches, Selection.Candidates, Selection.ParseNeed;
  }

  /** A fetch that succeeds leaves its artifact ready. */
  lemma FetchSucceeds(s: Setting, files: Files, id: string, force: bool, w: World) returns (i: nat)
    requires s.base != [] && Step(s, files, Fetch(id, force), w).1 == 0
    ensures i < |s.tables| && FindVariant(s.tables, id) == Some(VariantOf(s.tables[i]))
    ensures IsReady(s, Step(s, files, Fetch(id, force), w).0, VariantOf(s.tables[i]))
  {
    var c := Fetch(id, force);
    var k := WhichTable(s, c);
    StepChanges(s, files, c, w, k);
    hide Fetched, VariantOf, FindVariant, IsReady, ChangesOnly, ArtifactPath;
    i := k.value;
  }

  /** Verifying an id right after a fetch of it that succeeds succeeds, whatever the other variants are. */
  lemma FetchVerifies(s: Setting, files: Files, id: string, force: bool, w: World, w': World)
    requires s.base != [] && Step(s, files, Fetch(id, force), w).1 == 0
    ensures var after := Step(s, files, Fetch(id, force), w).0;
            Step(s, after, Verify([id]), w') == (after, 0)
  {
    var i := FetchSucceeds(s, files, id, force, w);
    hide Fetched, VariantOf, FindVariant, Matches;
  }

  /**
   When no variants clash, verifying the id succeeds after any further commands too, whatever they meet.
   */
  lemma FetchThenVerify(s: Setting, files: Files, id: string, force: bool, w: World, commands: seq<(Command, World)>, w': World)
    requires s.base != [] && Apart(s) && Step(s, files, Fetch(id, force), w).1 == 0
    ensures var later := Run(s, Step(s, files, Fetch(id, force), w).0, commands);
            Step(s, later, Verify([id]), w') == (later, 0)
  {
    var i := FetchSucceeds(s, files, id, force, w);
    hide Fetched, VariantOf, FindVariant, Apart, Run, Matches;
    RunKeeps(s, Step(s, files, Fetch(id, force), w).0, commands, i);
  }

  /** A whole download that matches is all a fetch needs, whatever is on disk. */
  lemma FetchWorks(s: Setting, files: Files, id: string, force: bool, body: string)
    requires s.base != []
    requires var v := FindVariant(s.tables, id);
             && v.Some? && ArtifactPath(s.base, v.value.artifact).Some? && !IsPlaceholder(v.value.url)
             && s.digest(body) == v.value.sha256
    ensures Step(s, files, Fetch(id, force), World(true, Body(body, true, true))).1 == 0
  {
    hide FindVariant, ArtifactPath, IsPlaceholder, PartOf;
  }

  /** An artifact that is ready is not downloaded again unless that is forced. */
  lemma PresentIsKept(s: Setting, files: Files, id: string, d: Download)
    requires s.base != []
    requires var v := FindVariant(s.tables, id); v.Some? && IsReady(s, files, v.value)
    ensures Step(s, files, Fetch(id, false), World(false, d)) == (files, 0)
  {
    hide FindVariant, ArtifactPath, IsPlaceholder, PartOf, Downloaded, PlacingOf;
  }

  /**
   A successful fetch of one variant takes the artifact away from every variant with the same file
   and another digest.
   */
  lemma SharedFileLoses(s: Setting, files: Files, id: string, force: bool, w: World, u: Variant)
    requires s.base != [] && Step(s, files, Fetch(id, force), w).1 == 0
    requires var v := FindVariant(s.tables, id);
             v.Some? && ArtifactPath(s.base, u.artifact) == ArtifactPath(s.base, v.value.artifact) && u.sha256 != v.value.sha256
    ensures !Matches(s, Step(s, files, Fetch(id, force), w).0, u)
  {
    var i := FetchSucceeds(s, files, id, force, w);
    hide Step, FindVariant, ArtifactPath, VariantOf;
  }

  /** A download without a response takes the artifact away from a variant whose file is the temporary file. */
  lemma SharedPartLoses(s: Setting, c: Command, v: Variant, p: Path, file: File)
    requires s.base != [] && AimsAt(s, c, v) && CanDownload(s, v) && ArtifactPath(s.base, v.artifact) == Some(p)
    ensures var force := if c.Fetch? then c.(force := true) else c;
            AimsAt(s, force, v)
            && Step(s, map[PartOf(p) := file], force, World(false, NoResponse)).0 == map[]
  {
    var files: Files := map[PartOf(p) := file];
    assert p !in files;
    assert files - {PartOf(p)} == map[];
    hide ArtifactPath, PartOf, FindVariant, Chosen, IsPlaceholder;
  }

  /** Where variants clash, there are files and a command after which an artifact that matched does not any more. */
  lemma ClashLoses(s: Setting, v: Variant, u: Variant) returns (files: Files, c: Command, w: World)
    requires s.base != [] && Clashes(s, v, u)
    ensures Matches(s, files, u) && !Matches(s, Step(s, files, c, w).0, u)
  {
    hide Step, AimsAt, ArtifactPath, PartOf, IsReached;
    var p, q := ArtifactPath(s.base, v.artifact).value, ArtifactPath(s.base, u.artifact).value;
    var content :| s.digest(content) == u.sha256;
    files := map[q := File(content, false)];
    if TakesPart(s, v, p, q) {
      var aim := ReachedBy(s, v);
      SharedPartLoses(s, aim, v, p, File(content, false));
      c, w := if aim.Fetch? then aim.(force := true) else aim, World(false, NoResponse);
    } else {
      var body :| s.digest(body) == v.sha256;
      FoundById(s, v);
      FetchWorks(s, files, v.id, true, body);
      c, w := Fetch(v.id, true), World(true, Body(body, true, true));
      SharedFileLoses(s, files, v.id, true, w, u);
    }
  }

  lemma ReachedBy(s: Setting, v: Variant) returns (c: Command)
    requires IsReached(s, v)
    ensures AimsAt(s, c, v)
  {
    c :| AimsAt(s, c, v);
  }

  lemma FoundById(s: Setting, v: Variant)
    requires AimsAt(s, Fetch(v.id, true), v)
    ensures FindVariant(s.tables, v.id) == Some(v)
  {
  }

  /** Every command leaves every artifact that matches its entry matching. */
  ghost predicate KeepsAll(s: Setting)
    requires s.base != []
  {
    forall files, c, w, j :: 0 <= j < |s.tables| && Matches(s, files, VariantOf(s.tables[j])) ==> KeepsOne(s, files, c, w, j)
  }

  ghost predicate KeepsOne(s: Setting, files: Files, c: Command, w: World, j: nat)
    requires s.base != [] && j < |s.tables|
  {
    Matches(s, Step(s, files, c, w).0, VariantOf(s.tables[j]))
  }

  /** No command can take a matching artifact away exactly when no two variants clash; no validation asks for that. */
  lemma ApartExactly(s: Setting)
    requires s.base != []
    ensures KeepsAll(s) <==> Apart(s)
  {
    hide Step, Matches, Clashes, VariantOf;
    if Apart(s) {
      forall files, c, w, j | 0 <= j < |s.tables| && Matches(s, files, VariantOf(s.tables[j]))
        ensures KeepsOne(s, files, c, w, j)
      {
        StepKeeps(s, files, c, w, j);
      }
    } else {
      var i, j :| 0 <= i < |s.tables| && 0 <= j < |s.tables| && Clashes(s, VariantOf(s.tables[i]), VariantOf(s.tables[j]));
      var files, c, w := ClashLoses(s, VariantOf(s.tables[i]), VariantOf(s.tables[j]));
      assert !KeepsOne(s, files, c, w, j);
    }
  }

  // ----- which variants can be fetched -----

  /**
   Whatever is on disk, a forced fetch can succeed exactly for a known variant with a safe path, a real
   address and a digest that some file has.
   */
  lemma FetchableExactly(s: Setting, files: Files, id: string)
    requires s.base != []
    ensures var v := FindVariant(s.tables, id);
            (exists w :: Step(s, files, Fetch(id, true), w).1 == 0)
            <==> v.Some? && CanDownload(s, v.value) && IsAttainable(s, v.value.sha256)
  {
    var found := FindVariant(s.tables, id);
    if w :| Step(s, files, Fetch(id, true), w).1 == 0 {
      ForcedFetchPlaced(s, files, id, w);
    }
    if found.Some? && CanDownload(s, found.value) && IsAttainable(s, found.value.sha256) {
      var body :| s.digest(body) == found.value.sha256;
      FetchWorks(s, files, id, true, body);
      assert Step(s, files, Fetch(id, true), World(true, Body(body, true, true))).1 == 0;
    }
  }

  lemma ForcedFetchPlaced(s: Setting, files: Files, id: string, w: World)
    requires s.base != [] && Step(s, files, Fetch(id, true), w).1 == 0
    ensures var v := FindVariant(s.tables, id);
            v.Some? && CanDownload(s, v.value) && IsAttainable(s, v.value.sha256)
  {
    hide FindVariant, ArtifactPath, IsPlaceholder, PartOf, Downloaded;
    var v := FindVariant(s.tables, id).value;
    assert w.download.Body? && s.digest(w.download.body) == v.sha256;
  }

  lemma GeneratedUrlIsReal(frag: Fragment, slug: string, tag: string)
    requires IsText(frag, "release_asset")
    ensures !IsPlaceholder(DownloadUrl(frag, slug, tag))
  {
    var url := DownloadUrl(frag, slug, tag);
    assert url[0] == 'h';
    NotAt(url, "TODO://", 0);
  }

  /** So a variant generated from a valid fragment can be fetched exactly when some file has the digest it states. */
  lemma ValidatedIsFetchable(s: Setting, files: Files, frag: Fragment, slug: string, tag: string)
    requires s.base != [] && IsResolved(s.base) && IsValid(frag) && IsTextual(frag) && IsText(frag, "id")
    requires FindVariant(s.tables, frag["id"].s) == Some(VariantOf(TableOf(frag, slug, tag)))
    ensures IsText(frag, "artifact_sha256")
    ensures (exists w :: Step(s, files, Fetch(frag["id"].s, true), w).1 == 0) <==> IsAttainable(s, frag["artifact_sha256"].s)
  {
    GeneratedVariant(frag, slug, tag);
    assert frag["artifact"] == JStr(frag["artifact"].s);
    ValidatedIsInside(s.base, frag["artifact"].s);
    GeneratedUrlIsReal(frag, slug, tag);
    FetchableExactly(s, files, frag["id"].s);
    hide Step, FindVariant, IsTextual, IsValid, TableOf, DownloadUrl, ArtifactPath, IsPlaceholder, IsAttainable;
  }

  /** The digest is written with lower-case letters, as that of the tool is. */
  ghost predicate IsLowerCase(digest: string -> string) {
    forall body :: Lower(digest(body)) == digest(body)
  }

  /** Validation accepts upper-case digits in a stated digest, but the tool compares it as it is: no file has such a digest. */
  lemma UpperCaseNeverMatches(s: Setting, sha256: string)
    requires IsLowerCase(s.digest) && Lower(sha256) != sha256
    ensures !IsAttainable(s, sha256)
  {
  }

  /** It happens: a digest in upper case is a well-formed one. */
  lemma UpperCaseIsAccepted() returns (sha256: string)
    ensures IsHexDigest(JStr(sha256)) && Lower(sha256) != sha256
  {
    sha256 := seq(64, i => 'A');
    assert LowerChar('A') == 'a' && 'a' in "0123456789abcdef";
    assert Lower(sha256)[0] == 'a';
  }

  // ----- the exit codes, in terms of the tables -----

  /** Table `i` is the first with the id. */
  ghost predicate IsFirst(s: Setting, id: string, i: int) {
    0 <= i < |s.tables| && TextAt(s.tables[i], "id", "") == id && forall j :: 0 <= j < i ==> TextAt(s.tables[j], "id", "") != id
  }

  function FileOf(s: Setting, table: Table): Option<Path> {
    ArtifactPath(s.base, TextAt(table, "artifact", ""))
  }

  predicate IsThere(s: Setting, files: Files, table: Table) {
    FileOf(s, table).Some? && FileOf(s, table).value in files
  }

  /** The file at the path is of the digest that the table states. */
  predicate IsIntact(s: Setting, files: Files, table: Table) {
    IsThere(s, files, table) && s.digest(files[FileOf(s, table).value].content) == TextAt(table, "artifact_sha256", "")
  }

  predicate HasAddress(table: Table) {
    var url := TextAt(table, "download_url", "");
    url != "" && !("TODO://" <= url)
  }

  predicate IsUnix(table: Table) {
    Get(table, "port") == Some(Str("unix"))
  }

  /** The file that is there can be run, or needs not, or its mode can be changed. */
  predicate CanRun(s: Setting, files: Files, table: Table, chmods: bool)
    requires IsThere(s, files, table)
  {
    IsUnix(table) ==> files[FileOf(s, table).value].executable || chmods
  }

  /** The whole artifact comes, and its file can be made. */
  predicate Comes(s: Setting, files: Files, table: Table, d: Download)
    requires s.base != [] && FileOf(s, table).Some?
  {
    var part := PartOf(FileOf(s, table).value);
    && d.Body? && s.digest(d.body) == TextAt(table, "artifact_sha256", "") && d.renames
    && (IsUnix(table) ==> d.chmods || (part in files && files[part].executable))
  }

  /** A whole file comes, but not of the stated digest. */
  predicate ComesWrong(s: Setting, table: Table, d: Download) {
    d.Body? && s.digest(d.body) != TextAt(table, "artifact_sha256", "")
  }

  lemma {:induction false} FirstAmong(tables: seq<Table>, id: string, i: nat)
    requires i < |tables| && TextAt(tables[i], "id", "") == id
    requires forall j :: 0 <= j < i ==> TextAt(tables[j], "id", "") != id
    ensures FindVariant(tables, id) == Some(VariantOf(tables[i]))
  {
    if i > 0 {
      FirstAmong(tables[1..], id, i - 1);
    }
  }

  lemma {:induction false} SomeFirst(tables: seq<Table>, id: string) returns (i: nat)
    requires FindVariant(tables, id).Some?
    ensures i < |tables| && TextAt(tables[i], "id", "") == id
    ensures forall j :: 0 <= j < i ==> TextAt(tables[j], "id", "") != id
  {
    hide TextAt;
    if TextAt(tables[0], "id", "") == id {
      i := 0;
    } else {
      i := SomeFirst(tables[1..], id);
      i := i + 1;
    }
  }

  /** An id means the first table that has it, and nothing exactly when none does. */
  lemma FoundFirst(s: Setting, id: string)
    ensures forall i :: IsFirst(s, id, i) ==> FindVariant(s.tables, id) == Some(VariantOf(s.tables[i]))
    ensures FindVariant(s.tables, id).Some? <==> exists i :: IsFirst(s, id, i)
  {
    hide VariantOf, FindVariant, TextAt;
    forall i | IsFirst(s, id, i)
      ensures FindVariant(s.tables, id) == Some(VariantOf(s.tables[i]))
    {
      FirstAmong(s.tables, id, i);
    }
    if FindVariant(s.tables, id).Some? {
      var i := SomeFirst(s.tables, id);
      assert IsFirst(s, id, i);
    }
  }

  lemma IntactIs(s: Setting, files: Files, table: Table)
    ensures IsIntact(s, files, table) <==> Matches(s, files, VariantOf(table))
  {
    hide ArtifactPath, TextAt;
  }

  /** Some table is the first with the id, and its artifact is intact. */
  ghost predicate IsIntactAs(s: Setting, files: Files, id: string) {
    exists i :: IsFirst(s, id, i) && IsIntact(s, files, s.tables[i])
  }

  /** Verifying ids changes nothing and succeeds exactly when the artifact of every one of them is there and intact. */
  lemma VerifyNamedExactly(s: Setting, files: Files, ids: seq<string>, w: World)
    requires s.base != [] && ids != []
    ensures Step(s, files, Verify(ids), w) == (files, if forall id :: id in ids ==> IsIntactAs(s, files, id) then 0 else 1)
  {
    hide FindVariant, Matches, VariantOf, IsIntact;
    forall i | 0 <= i < |ids|
      ensures NamedVerifies(s, files, ids[i]) <==> IsIntactAs(s, files, ids[i])
    {
      FoundFirst(s, ids[i]);
      if j :| IsFirst(s, ids[i], j) {
        IntactIs(s, files, s.tables[j]);
        forall k | IsFirst(s, ids[i], k)
          ensures k == j
        {
        }
      }
    }
    hide NamedVerifies, IsIntactAs;
    assert Verifies(s, files, ids) <==> forall id :: id in ids ==> IsIntactAs(s, files, id);
  }

  /** A table that is not deprecated names a file outside the directory, or one that is there and not intact. */
  predicate IsBroken(s: Setting, files: Files, table: Table) {
    && Selection.IsFalsy(Get(table, "deprecated"))
    && (FileOf(s, table).None? || (IsThere(s, files, table) && !IsIntact(s, files, table)))
  }

  lemma BrokenIs(s: Setting, files: Files, table: Table)
    ensures IsBroken(s, files, table) <==> !TableVerifies(s, files, VariantOf(table))
  {
    Selection.FalsyIs(table);
    hide ArtifactPath, TextAt, Get, Selection.IsDeprecated, Selection.IsFalsy;
  }

  /** Verifying everything fails exactly when some table is broken; what was not fetched is passed over. */
  lemma VerifyAllExactly(s: Setting, files: Files, w: World)
    requires s.base != []
    ensures Step(s, files, Verify([]), w)
         == (files, if exists i :: 0 <= i < |s.tables| && IsBroken(s, files, s.tables[i]) then 1 else 0)
  {
    hide TableVerifies, VariantOf, IsBroken;
    forall i | 0 <= i < |s.tables| { BrokenIs(s, files, s.tables[i]); }
  }

  lemma AddressIs(table: Table)
    ensures HasAddress(table) <==> !IsPlaceholder(VariantOf(table).url)
  {
    hide TextAt;
    var url := TextAt(table, "download_url", "");
    assert "TODO://" <= url <==> StartsWith(url, "TODO://");
  }

  /** The download of a table, in its own terms. */
  lemma ComesIs(s: Setting, files: Files, table: Table, d: Download)
    requires s.base != [] && FileOf(s, table).Some?
    ensures var p := FileOf(s, table).value;
            var placing := PlacingOf(s, files, VariantOf(table), p, d);
            && (placing.Placed? <==> Comes(s, files, table, d)) && (placing.Mismatch? <==> ComesWrong(s, table, d))
            && (Comes(s, files, table, d) ==>
                  var after := Downloaded(s, files, VariantOf(table), p, d);
                  && p in after && after[p].content == d.body
                  && (after[p].executable <==> IsUnix(table) || (PartOf(p) in files && files[PartOf(p)].executable)))
  {
    hide ArtifactPath, TextAt, PartOf, Get;
  }

  /** Once there is a directory to download to, a download leaves no temporary file, not even one from before. */
  lemma PartIsGone(s: Setting, files: Files, v: Variant, p: Path, d: Download)
    requires p != [] && !d.NoDirectory?
    ensures PartOf(p) !in Downloaded(s, files, v, p, d)
  {
    hide PartOf;
  }

  /** An intact artifact is not touched unless it has to be made executable. */
  lemma IntactIsKept(s: Setting, files: Files, id: string, w: World, i: nat)
    requires s.base != [] && IsFirst(s, id, i) && IsIntact(s, files, s.tables[i])
    ensures var p := FileOf(s, s.tables[i]).value;
            var (after, code) := Step(s, files, Fetch(id, false), w);
            after == if IsUnix(s.tables[i]) && code == 0 then files[p := files[p].(executable := true)] else files
  {
    FoundFirst(s, id);
    IntactIs(s, files, s.tables[i]);
    var p := FileOf(s, s.tables[i]).value;
    assert files[p].executable ==> files[p := files[p].(executable := true)] == files;
    hide FindVariant, ArtifactPath, TextAt, IsPlaceholder, Downloaded, PlacingOf, Matches, IsFirst, Get;
  }

  /**
   A fetch succeeds exactly when the intact artifact is there, or comes from a real address, and can be
   made executable where it has to be; 2 stands for the want of an address.
   */
  lemma FetchExactly(s: Setting, files: Files, id: string, force: bool, w: World, i: nat)
    requires s.base != [] && IsFirst(s, id, i)
    ensures var table, code := s.tables[i], Step(s, files, Fetch(id, force), w).1;
            var kept := !force && IsIntact(s, files, table);
            && code in {0, 1, 2}
            && (code == 0 <==> FileOf(s, table).Some?
                               && if kept then CanRun(s, files, table, w.chmods)
                                  else HasAddress(table) && Comes(s, files, table, w.download))
            && (code == 2 <==> FileOf(s, table).Some? && !kept && !HasAddress(table))
  {
    var table := s.tables[i];
    FoundFirst(s, id);
    IntactIs(s, files, table);
    AddressIs(table);
    if FileOf(s, table).Some? { ComesIs(s, files, table, w.download); }
    hide FindVariant, ArtifactPath, TextAt, IsPlaceholder, HasAddress, Comes, ComesWrong, PlacingOf, Downloaded, Matches, IsFirst,
         Get;
  }

  /** A fetch of an id that no table has changes nothing and fails. */
  lemma FetchUnknown(s: Setting, files: Files, id: string, force: bool, w: World)
    requires s.base != [] && forall i :: !IsFirst(s, id, i)
    ensures Step(s, files, Fetch(id, force), w) == (files, 1)
  {
    FoundFirst(s, id);
    hide FindVariant, IsFirst;
  }

  /** What a selection does when it has found its table: 2 stands for a wrong digest, or the want of an address. */
  lemma ResolvedExactly(s: Setting, files: Files, table: Table, w: World)
    requires s.base != []
    ensures var code := Resolved(s, files, VariantOf(table), w).1;
            && code in {0, 1, 2}
            && (code == 0 <==> FileOf(s, table).Some?
                               && if IsThere(s, files, table) then IsIntact(s, files, table) && CanRun(s, files, table, w.chmods)
                                  else HasAddress(table) && Comes(s, files, table, w.download))
            && (code == 2 <==> FileOf(s, table).Some?
                               && if IsThere(s, files, table) then !IsIntact(s, files, table)
                                  else !HasAddress(table) || ComesWrong(s, table, w.download))
  {
    IntactIs(s, files, table);
    AddressIs(table);
    if FileOf(s, table).Some? { ComesIs(s, files, table, w.download); }
    hide ArtifactPath, TextAt, IsPlaceholder, HasAddress, Comes, ComesWrong, PlacingOf, Downloaded, Matches, Get;
  }

  /** What a query finds: a need that cannot be read gives 2, and one that not exactly one table meets gives 1. */
  lemma ChosenExactly(s: Setting, need: string, port: Option<string>, board: Option<string>)
    ensures var keys := Selection.ParseNeed(need);
            match Chosen(s, need, port, board)
            case Ok(v) =>
              keys.Ok? && exists i :: 0 <= i < |s.tables| && Selection.OnlyWanted(s.tables, keys.value, port, board, i)
                                      && v == VariantOf(s.tables[i])
            case Err(code) =>
              if keys.Err? then code == 2
              else code == 1 && forall i :: 0 <= i < |s.tables| ==> !Selection.OnlyWanted(s.tables, keys.value, port, board, i)
  {
    var keys := Selection.ParseNeed(need);
    if keys.Ok? { Selection.OneSelected(s.tables, keys.value, port, board); }
    hide Selection.ParseNeed, Selection.Matches, Selection.Candidates, Selection.OnlyWanted, VariantOf;
  }

  /** A selection succeeds exactly when one table alone meets the need and its artifact is there and intact, or comes. */
  lemma SelectExactly(s: Setting, files: Files, need: string, port: Option<string>, board: Option<string>, w: World)
    requires s.base != []
    ensures var keys := Selection.ParseNeed(need);
            var code := Step(s, files, Select(need, port, board), w).1;
            && (keys.Err? ==> code == 2)
            && (keys.Ok? && (forall i :: 0 <= i < |s.tables| ==> !Selection.OnlyWanted(s.tables, keys.value, port, board, i))
                ==> code == 1)
            && forall i :: keys.Ok? && 0 <= i < |s.tables| && Selection.OnlyWanted(s.tables, keys.value, port, board, i) ==>
                  code == Resolved(s, files, VariantOf(s.tables[i]), w).1
  {
    ChosenExactly(s, need, port, board);
    var keys := Selection.ParseNeed(need);
    if keys.Ok? {
      forall i, j | 0 <= i < |s.tables| && 0 <= j < |s.tables| && Selection.OnlyWanted(s.tables, keys.value, port, board, i)
                    && Selection.OnlyWanted(s.tables, keys.value, port, board, j)
        ensures i == j
      {
        hide *;
      }
    }
    hide Chosen, Resolved, VariantOf, Selection.ParseNeed, Selection.OnlyWanted;
  }

  // ----- the tool -----

  datatype Verdict = Passes | Fails | Skips | Unsafe

  class Store {
    const s: Setting
    var files: Files

    constructor (s: Setting, files: Files)
      ensures this.s == s && this.files == files
    {
      this.s, this.files := s, files;
    }

    /** Sets the execute bit of a host executable; raises when the mode cannot be changed. */
    method EnsureExecutable(v: Variant, p: Path, chmods: bool) returns (raised: bool)
      requires p in files
      modifies `files
      ensures (files, if raised then 1 else 0) == MadeExecutable(old(files), v, p, chmods)
    {
      raised := false;
      if v.isUnix && !files[p].executable {
        if !chmods { return true; }
        files := files[p := files[p].(executable := true)];
      }
    }

    /** The download goes to the temporary file, which takes the artifact's place only when it matches. */
    method DownloadAndVerify(v: Variant, p: Path, d: Download) returns (placing: Placing)
      requires p != []
      modifies `files
      ensures placing == PlacingOf(s, old(files), v, p, d)
      ensures files == Downloaded(s, old(files), v, p, d)
    {
      if d.NoDirectory? { return Failed; }
      var part := PartOf(p);
      placing := Failed;
      match d {
        case NoResponse =>
        case CutShort(written) => files := files[part := File(written, part in files && files[part].executable)];
        case Body(body, chmods, renames) =>
          files := files[part := File(body, part in files && files[part].executable)];
          if s.digest(files[part].content) != v.sha256 {
            placing := Mismatch;
          } else {
            var raised := EnsureExecutable(v, part, chmods);
            if !raised && renames {
              files := (files - {part})[p := files[part]];
              placing := Placed;
            }
          }
      }
      files := files - {part};
    }

    method CmdFetch(id: string, force: bool, w: World) returns (code: int)
      requires s.base != []
      modifies `files
      ensures (files, code) == Step(s, old(files), Fetch(id, force), w)
    {
      hide Downloaded, PlacingOf, IsPlaceholder, FindVariant;
      var found := FindVariant(s.tables, id);
      if found.None? { return 1; }
      var v := found.value;
      var path := ArtifactPath(s.base, v.artifact);
      if path.None? { return 1; }
      var p := path.value;
      if p in files && !force {
        if s.digest(files[p].content) == v.sha256 {
          var raised := EnsureExecutable(v, p, w.chmods);
          return if raised then 1 else 0;
        }
      }
      if IsPlaceholder(v.url) { return 2; }
      var placing := DownloadAndVerify(v, p, w.download);
      code := if placing.Placed? then 0 else 1;
    }

    /** The path of a variant's artifact, fetched when it is not there; or the exit code of the failure. */
    method ResolveArtifact(v: Variant, w: World) returns (r: Result<Path, int>)
      requires s.base != []
      modifies `files
      ensures (files, if r.Ok? then 0 else r.error) == Resolved(s, old(files), v, w)
      ensures r.Err? ==> r.error != 0
      ensures r.Ok? ==> Some(r.value) == ArtifactPath(s.base, v.artifact)
    {
      hide Downloaded, PlacingOf, IsPlaceholder;
      var path := ArtifactPath(s.base, v.artifact);
      if path.None? { return Err(1); }
      var p := path.value;
      if p in files {
        if s.digest(files[p].content) != v.sha256 { return Err(2); }
        var raised := EnsureExecutable(v, p, w.chmods);
        return if raised then Err(1) else Ok(p);
      }
      if IsPlaceholder(v.url) { return Err(2); }
      var placing := DownloadAndVerify(v, p, w.download);
      match placing
      case Placed => r := Ok(p);
      case Mismatch => r := Err(2);
      case Failed => r := Err(1);
    }

    method CmdSelect(need: string, port: Option<string>, board: Option<string>, w: World) returns (code: int, shown: Option<Path>)
      requires s.base != []
      modifies `files
      ensures (files, code) == Step(s, old(files), Select(need, port, board), w)
      ensures shown.Some? <==> code == 0
      ensures shown.Some? ==> Chosen(s, need, port, board).Ok?
                              && shown == ArtifactPath(s.base, Chosen(s, need, port, board).value.artifact)
    {
      hide Resolved, ArtifactPath, VariantOf, Selection.ParseNeed, Selection.Candidates, Selection.Matches;
      var keys := Selection.ParseNeed(need);
      if keys.Err? { return 2, None; }
      var selected := Selection.SelectVariants(s.tables, keys.value, port, board);
      var matches := selected.value.1;
      if |matches| != 1 { return 1, None; }
      var r := ResolveArtifact(VariantOf(matches[0]), w);
      match r
      case Ok(p) => return 0, Some(p);
      case Err(c) => return c, None;
    }

    method VerifyOne(v: Variant, strict: bool) returns (verdict: Verdict)
      ensures strict ==> (verdict.Passes? <==> Matches(s, files, v)) && !verdict.Skips?
      ensures !strict ==> (verdict.Passes? || verdict.Skips? <==> TableVerifies(s, files, v))
    {
      if !strict && v.deprecated { return Skips; }
      var path := ArtifactPath(s.base, v.artifact);
      if path.None? { return Unsafe; }
      if path.value !in files { return if strict then Fails else Skips; }
      return if s.digest(files[path.value].content) != v.sha256 then Fails else Passes;
    }

    method FindAll(ids: seq<string>) returns (r: Option<seq<Variant>>)
      ensures r.None? ==> exists j :: 0 <= j < |ids| && FindVariant(s.tables, ids[j]).None?
      ensures r.Some? ==> |r.value| == |ids| && forall j :: 0 <= j < |ids| ==> FindVariant(s.tables, ids[j]) == Some(r.value[j])
    {
      hide FindVariant;
      var selected: seq<Variant> := [];
      var i := 0;
      while i < |ids|
        invariant 0 <= i == |selected| <= |ids|
        invariant forall j :: 0 <= j < i ==> FindVariant(s.tables, ids[j]) == Some(selected[j])
      {
        var v := FindVariant(s.tables, ids[i]);
        if v.None? { return None; }
        selected := selected + [v.value];
        i := i + 1;
      }
      r := Some(selected);
    }

    method VerifyNamed(ids: seq<string>) returns (code: int)
      requires ids != []
      ensures code == if Verifies(s, files, ids) then 0 else 1
    {
      hide Matches, FindVariant;
      var selected := FindAll(ids);
      if selected.None? {
        assert exists j :: 0 <= j < |ids| && !NamedVerifies(s, files, ids[j]);
        return 1;
      }
      assert forall j :: 0 <= j < |ids| ==> (NamedVerifies(s, files, ids[j]) <==> Matches(s, files, selected.value[j]));
      hide NamedVerifies;
      code := 0;
      var i := 0;
      while i < |ids|
        invariant 0 <= i <= |ids|
        invariant code == if forall j :: 0 <= j < i ==> NamedVerifies(s, files, ids[j]) then 0 else 1
      {
        var verdict := VerifyOne(selected.value[i], true);
        if verdict.Unsafe? { return 1; }
        if verdict.Fails? { code := 1; }
        i := i + 1;
      }
    }

    method VerifyAll() returns (code: int)
      ensures code == if Verifies(s, files, []) then 0 else 1
    {
      hide TableVerifies, Matches, VariantOf;
      code := 0;
      var i := 0;
      while i < |s.tables|
        invariant 0 <= i <= |s.tables|
        invariant code == if forall j :: 0 <= j < i ==> TableVerifies(s, files, VariantOf(s.tables[j])) then 0 else 1
      {
        var verdict := VerifyOne(VariantOf(s.tables[i]), false);
        if verdict.Unsafe? { return 1; }
        if verdict.Fails? { code := 1; }
        i := i + 1;
      }
    }

    method CmdVerify(ids: seq<string>, w: World) returns (code: int)
      requires s.base != []
      ensures (files, code) == Step(s, files, Verify(ids), w)
    {
      hide Verifies;
      if ids != [] {
        code := VerifyNamed(ids);
      } else {
        code := VerifyAll();
      }
    }
  }
}
