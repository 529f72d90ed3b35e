/**
 The decision `gating_jobs` takes from a tree of workflows: which jobs a pull request that changes
 given files would face.
 */
module GatingJobs {
  import opened Wrappers
  import opened Text
  import opened Regex
  import opened PathGlob

  /** The part of a `pull_request` trigger that the decision looks at. */
  datatype Filter = Filter(paths: Option<seq<string>>, pathsIgnore: Option<seq<string>>)

  /** A trigger block: one name, a list of names, a table of names with their bodies, or anything else. */
  datatype Triggers =
    | Name(name: string)
    | Names(names: seq<string>)
    | Table(table: map<string, Option<Filter>>)
    | Other

  /** A parsed document: no table, or a table with what it has under `on`, under `True`, and its jobs. */
  datatype Document = NotATable | Workflow(on: Option<Triggers>, onTrue: Option<Triggers>, jobs: seq<string>)

  /** A file of the tree: its name below the workflow directory, and what it parses as. */
  datatype File = File(path: string, doc: Document)

  const NO_FILTER := Filter(None, None)

  /** The filter a document puts on pull requests, or None when they do not trigger it. */
  function PullRequest(doc: Document): Option<Filter> {
    if doc.NotATable? then None
    else
      match if doc.on.Some? then doc.on else doc.onTrue
      case None => None
      case Some(Other) => None
      case Some(Name(n)) => if n == "pull_request" then Some(NO_FILTER) else None
      case Some(Names(ns)) => if "pull_request" in ns then Some(NO_FILTER) else None
      case Some(Table(t)) =>
        if "pull_request" !in t then None
        else match t["pull_request"] { case None => Some(NO_FILTER) case Some(f) => Some(f) }
  }

  predicate IsWorkflowPath(path: string) {
    EndsWith(path, ".yml") || EndsWith(path, ".yaml")
  }

  predicate EndsWith(s: string, suffix: string) {
    At(s, suffix, |s| - |suffix|)
  }

  /** The patterns that stay within the syntax the translation implements. */
  predicate Understood(p: string) {
    !StartsWith(p, "!") && forall i :: 0 <= i < |p| ==> p[i] !in "+@()[]{}"
  }

  predicate FilterIsUnderstood(patterns: seq<string>) {
    !exists i :: 0 <= i < |patterns| && !Understood(patterns[i])
  }

  /** Some pattern's compiled form matches `f`. */
  predicate AnyMatch(patterns: seq<string>, f: string) {
    exists i :: 0 <= i < |patterns| && Match(RegexOf(patterns[i]), f)
  }

  predicate PathsAdmit(patterns: seq<string>, changed: seq<string>) {
    !FilterIsUnderstood(patterns) || exists j :: 0 <= j < |changed| && AnyMatch(patterns, changed[j])
  }

  /** The two tests a triggered workflow has to pass before its jobs count. */
  predicate Counts(filter: Filter, changed: seq<string>) {
    && (filter.paths.Some? ==> PathsAdmit(filter.paths.value, changed))
    && !(filter.pathsIgnore.Some? && FilterIsUnderstood(filter.pathsIgnore.value)
         && forall j :: 0 <= j < |changed| ==> AnyMatch(filter.pathsIgnore.value, changed[j]))
  }

  predicate Gates(file: File, changed: seq<string>) {
    IsWorkflowPath(file.path) && PullRequest(file.doc).Some? && Counts(PullRequest(file.doc).value, changed)
  }

  function JobId(file: File, job: string): string {
    LastSegment(file.path) + ":" + job
  }

  /** The jobs a document lists; none for one that is no table. */
  function JobsOf(doc: Document): seq<string> {
    if doc.NotATable? then [] else doc.jobs
  }

  /** The ids of all jobs of the files that gate. */
  function JobIds(tree: seq<File>, changed: seq<string>): (ids: set<string>)
  {
    set file, job | file in tree && Gates(file, changed) && job in JobsOf(file.doc) :: JobId(file, job)
  }

  method GatingJobs(tree: seq<File>, changed: seq<string>) returns (jobs: set<string>)
    ensures jobs == JobIds(tree, changed)
  {
    hide Match, RegexOf, AnyMatch, FilterIsUnderstood, IsWorkflowPath, PathsAdmit, PullRequest, JobIds, JobId;
    jobs := {};
    NoFiles(changed);
    var i := 0;
    while i < |tree|
      invariant 0 <= i <= |tree|
      invariant jobs == JobIds(tree[..i], changed)
    {
      var file := tree[i];
      TreeNext(tree, changed, i);
      i := i + 1;
      if !IsWorkflowPath(file.path) { continue; }
      var pullRequest := PullRequest(file.doc);
      if pullRequest.None? { continue; }
      var included, ignored := pullRequest.value.paths, pullRequest.value.pathsIgnore;
      if included.Some? && !PathsAdmit(included.value, changed) { continue; }
      if ignored.Some? && FilterIsUnderstood(ignored.value) {
        if forall j :: 0 <= j < |changed| ==> AnyMatch(ignored.value, changed[j]) { continue; }
      }
      assert Gates(file, changed);
      var k := 0;
      while k < |JobsOf(file.doc)|
        invariant 0 <= k <= |JobsOf(file.doc)|
        invariant jobs == JobIds(tree[..i - 1], changed) + FirstIds(file, k)
      {
        FirstIdsNext(file, k);
        jobs := jobs + {JobId(file, JobsOf(file.doc)[k])};
        k := k + 1;
      }
    }
    assert tree[..i] == tree;
  }

  /** The ids of the first `k` jobs of a file. */
  function FirstIds(file: File, k: nat): set<string>
    requires k <= |JobsOf(file.doc)|
  {
    set job | job in JobsOf(file.doc)[..k] :: JobId(file, job)
  }

  lemma FirstIdsNext(file: File, k: nat)
    requires k < |JobsOf(file.doc)|
    ensures FirstIds(file, k + 1) == FirstIds(file, k) + {JobId(file, JobsOf(file.doc)[k])}
  {
    assert JobsOf(file.doc)[..k + 1] == JobsOf(file.doc)[..k] + [JobsOf(file.doc)[k]];
  }

  lemma NoFiles(changed: seq<string>)
    ensures JobIds([], changed) == {}
  {
  }

  lemma TreeNext(tree: seq<File>, changed: seq<string>, i: nat)
    requires i < |tree|
    ensures JobIds(tree[..i + 1], changed)
         == JobIds(tree[..i], changed)
            + if Gates(tree[i], changed) then FirstIds(tree[i], |JobsOf(tree[i].doc)|) else {}
  {
    hide Gates;
    assert JobsOf(tree[i].doc)[..|JobsOf(tree[i].doc)|] == JobsOf(tree[i].doc);
    assert tree[..i + 1] == tree[..i] + [tree[i]];
  }

  // ----- the report errs on the safe side -----

  /**
   A meaning for whole filters, of which only this much is known: on filters the translation
   understands, a list admits what one of its patterns does.
   */
  ghost predicate Agrees(admits: (seq<string>, string) -> bool) {
    forall patterns, f :: FilterIsUnderstood(patterns) ==> AgreesOn(admits, patterns, f)
  }

  predicate AgreesOn(admits: (seq<string>, string) -> bool, patterns: seq<string>, f: string) {
    admits(patterns, f) <==> exists i :: 0 <= i < |patterns| && GlobMatch(patterns[i], f)
  }

  /** A job is really faced when some changed file passes `paths`, and some changed file is not ignored. */
  predicate ReallyGates(admits: (seq<string>, string) -> bool, file: File, changed: seq<string>) {
    && IsWorkflowPath(file.path)
    && PullRequest(file.doc).Some?
    && var filter := PullRequest(file.doc).value;
       && (filter.paths.Some? ==> exists j :: 0 <= j < |changed| && admits(filter.paths.value, changed[j]))
       && (filter.pathsIgnore.Some? ==> exists j :: 0 <= j < |changed| && !admits(filter.pathsIgnore.value, changed[j]))
  }

  predicate AllNewlineFree(changed: seq<string>) {
    forall j :: 0 <= j < |changed| ==> NewlineFree(changed[j])
  }

  lemma AnyMatchMeans(admits: (seq<string>, string) -> bool, patterns: seq<string>, f: string)
    requires Agrees(admits) && FilterIsUnderstood(patterns) && NewlineFree(f)
    ensures AnyMatch(patterns, f) <==> admits(patterns, f)
  {
    assert AgreesOn(admits, patterns, f);
    hide Match, RegexOf, GlobMatch, Understood;
    forall i | 0 <= i < |patterns|
      ensures Match(RegexOf(patterns[i]), f) <==> GlobMatch(patterns[i], f)
    {
      TranslationCorrect(patterns[i], f);
    }
  }

  predicate FullyUnderstood(file: File) {
    PullRequest(file.doc).Some? ==>
      var filter := PullRequest(file.doc).value;
      && (filter.paths.Some? ==> FilterIsUnderstood(filter.paths.value))
      && (filter.pathsIgnore.Some? ==> FilterIsUnderstood(filter.pathsIgnore.value))
  }

  /** Whatever filters mean beyond that, a file that really gates is counted; understood files exactly then. */
  lemma GatesSoundly(admits: (seq<string>, string) -> bool, file: File, changed: seq<string>)
    requires Agrees(admits) && AllNewlineFree(changed)
    ensures ReallyGates(admits, file, changed) ==> Gates(file, changed)
    ensures FullyUnderstood(file) ==> (Gates(file, changed) <==> ReallyGates(admits, file, changed))
  {
    hide AnyMatch, FilterIsUnderstood, IsWorkflowPath, Agrees;
    if IsWorkflowPath(file.path) && PullRequest(file.doc).Some? {
      var filter := PullRequest(file.doc).value;
      forall j | 0 <= j < |changed| && filter.paths.Some? && FilterIsUnderstood(filter.paths.value)
        ensures AnyMatch(filter.paths.value, changed[j]) <==> admits(filter.paths.value, changed[j])
      {
        AnyMatchMeans(admits, filter.paths.value, changed[j]);
      }
      forall j | 0 <= j < |changed| && filter.pathsIgnore.Some? && FilterIsUnderstood(filter.pathsIgnore.value)
        ensures AnyMatch(filter.pathsIgnore.value, changed[j]) <==> admits(filter.pathsIgnore.value, changed[j])
      {
        AnyMatchMeans(admits, filter.pathsIgnore.value, changed[j]);
      }
    }
  }

  /** Every job that really gates a change is in the result. */
  lemma NoGatingJobMissed(admits: (seq<string>, string) -> bool, tree: seq<File>, changed: seq<string>, file: File, job: string)
    requires Agrees(admits) && AllNewlineFree(changed)
    requires file in tree && job in JobsOf(file.doc) && ReallyGates(admits, file, changed)
    ensures JobId(file, job) in JobIds(tree, changed)
  {
    hide ReallyGates, Gates;
    GatesSoundly(admits, file, changed);
  }

  // ----- what gates, read off the document -----

  /** The block names the trigger without a filter: as a name, in a list, or as a key without a body. */
  predicate TriggersPlainly(t: Triggers) {
    t == Name("pull_request")
    || (t.Names? && "pull_request" in t.names)
    || (t.Table? && "pull_request" in t.table && t.table["pull_request"] == None)
  }

  predicate TriggersFiltered(t: Triggers, filter: Filter) {
    t.Table? && "pull_request" in t.table && t.table["pull_request"] == Some(filter)
  }

  /** A block under the key `True` gates as one under `on` does, and one under `on` goes first. */
  lemma OnGoesFirst(path: string, t: Triggers, onTrue: Option<Triggers>, jobs: seq<string>, changed: seq<string>)
    ensures var file := File(path, Workflow(None, Some(t), jobs));
            && Gates(File(path, Workflow(Some(t), onTrue, jobs)), changed) == Gates(file, changed)
            && JobIds([File(path, Workflow(Some(t), onTrue, jobs))], changed) == JobIds([file], changed)
  {
    hide Counts, IsWorkflowPath, LastSegment;
    var file, other := File(path, Workflow(None, Some(t), jobs)), File(path, Workflow(Some(t), onTrue, jobs));
    assert PullRequest(file.doc) == PullRequest(other.doc);
    assert forall job :: JobId(file, job) == JobId(other, job);
    assert file in [file] && other in [other];
  }

  /**
   A workflow whose trigger block is under `True`, as these workflows have it: without a filter the block
   gates every change, and one that does not name pull requests gates none.
   */
  lemma TriggerGates(path: string, t: Triggers, jobs: seq<string>, changed: seq<string>)
    requires IsWorkflowPath(path)
    ensures var file := File(path, Workflow(None, Some(t), jobs));
            && (TriggersPlainly(t) ==> Gates(file, changed))
            && (Gates(file, changed) ==> TriggersPlainly(t) || exists filter :: TriggersFiltered(t, filter))
            && forall id :: id in JobIds([file], changed) <==> Gates(file, changed) && exists job :: job in jobs && id == JobId(file, job)
  {
    hide IsWorkflowPath, Counts, LastSegment, JobId;
    var file := File(path, Workflow(None, Some(t), jobs));
    assert Counts(NO_FILTER, changed) by { UnfilteredCounts(changed); }
    if t.Table? && "pull_request" in t.table && t.table["pull_request"].Some? {
      assert TriggersFiltered(t, t.table["pull_request"].value);
    }
    assert file in [file];
  }

  lemma UnfilteredCounts(changed: seq<string>)
    ensures Counts(NO_FILTER, changed)
  {
  }

  /** The jobs of a tree are those of its files. */
  lemma TreesApart(tree: seq<File>, more: seq<File>, changed: seq<string>)
    ensures JobIds(tree + more, changed) == JobIds(tree, changed) + JobIds(more, changed)
  {
    hide Gates;
    assert forall file :: file in tree + more <==> file in tree || file in more;
  }

  /** Without a block, or a table, nothing gates. */
  lemma NoTriggerNoGate(path: string, jobs: seq<string>, changed: seq<string>)
    ensures !Gates(File(path, Workflow(None, None, jobs)), changed) && !Gates(File(path, NotATable), changed)
    ensures JobIds([File(path, Workflow(None, None, jobs)), File(path, NotATable)], changed) == {}
  {
    hide IsWorkflowPath, Counts;
  }

  /** The pattern uses no more than stars and question marks. */
  predicate IsPlain(p: string) {
    && (p == "" || p[0] != '!')
    && '+' !in p && '@' !in p && '(' !in p && ')' !in p && '[' !in p && ']' !in p && '{' !in p && '}' !in p
  }

  predicate ArePlain(patterns: seq<string>) {
    forall i :: 0 <= i < |patterns| ==> IsPlain(patterns[i])
  }

  /** Some pattern admits some changed file. */
  predicate SomeAdmits(patterns: seq<string>, f: string) {
    exists i :: 0 <= i < |patterns| && GlobMatch(patterns[i], f)
  }

  lemma PlainIsUnderstood(p: string)
    ensures IsPlain(p) <==> Understood(p)
  {
    if p != "" {
      assert p[0] == '!' ==> p[0..1] == "!";
      if p[0] != '!' { NotAt(p, "!", 0); }
    }
    if !Understood(p) && !StartsWith(p, "!") {
      var i :| 0 <= i < |p| && p[i] in "+@()[]{}";
      assert p[i] in p;
    }
  }

  lemma PlainMatch(patterns: seq<string>, f: string)
    requires NewlineFree(f)
    ensures AnyMatch(patterns, f) <==> SomeAdmits(patterns, f)
  {
    hide Match, RegexOf, GlobMatch;
    forall i | 0 <= i < |patterns| { TranslationCorrect(patterns[i], f); }
  }

  lemma ArePlainIs(patterns: seq<string>)
    ensures ArePlain(patterns) <==> FilterIsUnderstood(patterns)
  {
    hide IsPlain, Understood;
    forall i | 0 <= i < |patterns| { PlainIsUnderstood(patterns[i]); }
  }

  /**
   A filtered workflow gates exactly the changes with a file that `paths` admits and a file that
   `paths-ignore` does not; a list that uses more of the syntax does not count against the workflow.
   */
  lemma FilterGates(path: string, t: Triggers, filter: Filter, jobs: seq<string>, changed: seq<string>)
    requires IsWorkflowPath(path) && TriggersFiltered(t, filter) && AllNewlineFree(changed)
    ensures Gates(File(path, Workflow(None, Some(t), jobs)), changed)
       <==> && (filter.paths.Some? && ArePlain(filter.paths.value) ==>
                  exists j :: 0 <= j < |changed| && SomeAdmits(filter.paths.value, changed[j]))
            && (filter.pathsIgnore.Some? && ArePlain(filter.pathsIgnore.value) ==>
                  exists j :: 0 <= j < |changed| && !SomeAdmits(filter.pathsIgnore.value, changed[j]))
  {
    hide IsWorkflowPath, AnyMatch, SomeAdmits, FilterIsUnderstood, ArePlain;
    if filter.paths.Some? { ArePlainIs(filter.paths.value); }
    if filter.pathsIgnore.Some? { ArePlainIs(filter.pathsIgnore.value); }
    forall ps, j | 0 <= j < |changed|
      ensures AnyMatch(ps, changed[j]) <==> SomeAdmits(ps, changed[j])
    {
      PlainMatch(ps, changed[j]);
    }
    assert PullRequest(Workflow(None, Some(t), jobs)) == Some(filter);
  }

  /** Workflows are the files of the two suffixes, and their jobs go by the name of the file. */
  lemma WorkflowPaths(stem: string)
    ensures IsWorkflowPath(stem + ".yml") && IsWorkflowPath(stem + ".yaml")
  {
    var (a, b) := (stem + ".yml", stem + ".yaml");
    assert a[|stem|..|stem| + 4] == ".yml" && b[|stem|..|stem| + 5] == ".yaml";
  }

  lemma OnlyWorkflowPaths(path: string) returns (stem: string)
    requires IsWorkflowPath(path)
    ensures path == stem + ".yml" || path == stem + ".yaml"
  {
    stem := if EndsWith(path, ".yml") then path[..|path| - 4] else path[..|path| - 5];
    assert path == stem + path[|stem|..];
  }

  lemma JobGoesByName(dir: string, name: string, doc: Document, job: string)
    requires SlashFree(name)
    ensures JobId(File(dir + "/" + name, doc), job) == name + ":" + job && JobId(File(name, doc), job) == name + ":" + job
  {
    LastSegmentIs(dir + "/", name);
    LastSegmentIs("", name);
    assert "" + name == name;
  }

  // ----- what the report of a branch says -----

  /** The ids of all jobs really faced, under a meaning of the filters. */
  ghost function ReallyFaced(admits: (seq<string>, string) -> bool, tree: seq<File>, changed: seq<string>): set<string> {
    set file, job | file in tree && ReallyGates(admits, file, changed) && job in JobsOf(file.doc) :: JobId(file, job)
  }

  /** The jobs upstream runs that the branch has never seen, and those that upstream has no more. */
  method CheckBranch(upstream: seq<File>, branch: seq<File>, changed: seq<string>)
    returns (unseen: set<string>, retired: set<string>)
    ensures unseen == if changed == [] then {} else JobIds(upstream, changed) - JobIds(branch, changed)
    ensures retired == if changed == [] then {} else JobIds(branch, changed) - JobIds(upstream, changed)
  {
    hide JobIds;
    if changed == [] { return {}, {}; }
    var faced := GatingJobs(upstream, changed);
    var seen := GatingJobs(branch, changed);
    unseen, retired := faced - seen, seen - faced;
  }

  /** An empty report means that the branch really runs every job that upstream really runs. */
  ghost predicate IsConclusive(admits: (seq<string>, string) -> bool, branch: seq<File>, changed: seq<string>) {
    forall upstream :: JobIds(upstream, changed) - JobIds(branch, changed) == {} ==> IsCovered(admits, upstream, branch, changed)
  }

  ghost predicate IsCovered(admits: (seq<string>, string) -> bool, upstream: seq<File>, branch: seq<File>, changed: seq<string>) {
    ReallyFaced(admits, upstream, changed) <= ReallyFaced(admits, branch, changed)
  }

  lemma ReallyFacedCounted(admits: (seq<string>, string) -> bool, tree: seq<File>, changed: seq<string>)
    requires Agrees(admits) && AllNewlineFree(changed)
    ensures ReallyFaced(admits, tree, changed) <= JobIds(tree, changed)
  {
    hide ReallyGates, Gates;
    forall file | file in tree { GatesSoundly(admits, file, changed); }
  }

  /** A workflow without filters, with one job. */
  function Unfiltered(path: string, job: string): File {
    File(path, Workflow(Some(Name("pull_request")), None, [job]))
  }

  lemma UnfilteredFaced(admits: (seq<string>, string) -> bool, path: string, job: string, changed: seq<string>)
    requires IsWorkflowPath(path)
    ensures JobIds([Unfiltered(path, job)], changed) == {JobId(Unfiltered(path, job), job)}
    ensures JobId(Unfiltered(path, job), job) in ReallyFaced(admits, [Unfiltered(path, job)], changed)
  {
    hide IsWorkflowPath;
    var file := Unfiltered(path, job);
    assert file in [file] && job in JobsOf(file.doc);
    assert ReallyGates(admits, file, changed) && Gates(file, changed);
  }

  lemma CoveredBy(admits: (seq<string>, string) -> bool, upstream: seq<File>, branch: seq<File>, changed: seq<string>)
    requires Agrees(admits) && AllNewlineFree(changed)
    requires JobIds(branch, changed) <= ReallyFaced(admits, branch, changed)
    requires JobIds(upstream, changed) - JobIds(branch, changed) == {}
    ensures IsCovered(admits, upstream, branch, changed)
  {
    hide JobIds, ReallyFaced, Agrees;
    ReallyFacedCounted(admits, upstream, changed);
    NothingLeft(JobIds(upstream, changed), JobIds(branch, changed));
  }

  lemma NothingLeft(a: set<string>, b: set<string>)
    requires a - b == {}
    ensures a <= b
  {
    forall id | id in a
      ensures id in b
    {
      assert id !in a - b;
    }
  }

  /** The report is conclusive exactly when every job counted for the branch is one that it really runs. */
  lemma ConclusiveExactly(admits: (seq<string>, string) -> bool, branch: seq<File>, changed: seq<string>)
    requires Agrees(admits) && AllNewlineFree(changed)
    ensures IsConclusive(admits, branch, changed) <==> JobIds(branch, changed) <= ReallyFaced(admits, branch, changed)
  {
    hide ReallyGates, Agrees;
    if JobIds(branch, changed) <= ReallyFaced(admits, branch, changed) {
      forall upstream | JobIds(upstream, changed) - JobIds(branch, changed) == {}
        ensures IsCovered(admits, upstream, branch, changed)
      {
        CoveredBy(admits, upstream, branch, changed);
      }
    }
    if IsConclusive(admits, branch, changed) {
      forall id | id in JobIds(branch, changed)
        ensures id in ReallyFaced(admits, branch, changed)
      {
        var file, job :| file in branch && Gates(file, changed) && job in JobsOf(file.doc) && JobId(file, job) == id;
        var upstream := [Unfiltered(file.path, job)];
        UnfilteredFaced(admits, file.path, job, changed);
        assert JobId(Unfiltered(file.path, job), job) == id;
        assert JobIds(upstream, changed) - JobIds(branch, changed) == {};
        assert IsCovered(admits, upstream, branch, changed);
      }
    }
  }

  /** It is when the branch's own filters are understood. */
  lemma UnderstoodIsConclusive(admits: (seq<string>, string) -> bool, branch: seq<File>, changed: seq<string>)
    requires Agrees(admits) && AllNewlineFree(changed)
    requires forall file :: file in branch ==> FullyUnderstood(file)
    ensures IsConclusive(admits, branch, changed)
  {
    hide ReallyGates, Gates, Agrees, FullyUnderstood, IsConclusive;
    forall file | file in branch { GatesSoundly(admits, file, changed); }
    assert JobIds(branch, changed) <= ReallyFaced(admits, branch, changed);
    ConclusiveExactly(admits, branch, changed);
  }

  /** A workflow whose one pattern has a character class, which the translation does not know. */
  function WithClass(path: string, job: string): File {
    var filter := Filter(Some(["src/[ab].c"]), None);
    File(path, Workflow(Some(Table(map["pull_request" := Some(filter)])), None, [job]))
  }

  lemma ClassNotUnderstood()
    ensures !FilterIsUnderstood(["src/[ab].c"])
  {
    var patterns := ["src/[ab].c"];
    assert patterns[0][4] == '[' && !Understood(patterns[0]);
  }

  lemma ClassHidesUnder(admits: (seq<string>, string) -> bool, path: string, job: string, f: string)
    requires IsWorkflowPath(path) && !admits(["src/[ab].c"], f)
    ensures var upstream, branch := [Unfiltered(path, job)], [WithClass(path, job)];
            && JobIds(upstream, [f]) - JobIds(branch, [f]) == {}
            && ReallyFaced(admits, upstream, [f]) != {} && ReallyFaced(admits, branch, [f]) == {}
  {
    hide IsWorkflowPath;
    var file := WithClass(path, job);
    UnfilteredFaced(admits, path, job, [f]);
    ClassNotUnderstood();
    assert Gates(file, [f]) && file in [file] && job in JobsOf(file.doc);
    assert JobId(file, job) == JobId(Unfiltered(path, job), job) && JobId(file, job) in JobIds([file], [f]);
    assert !ReallyGates(admits, file, [f]);
  }

  /** Meanings that agree on what is understood, and do not admit the class, there are. */
  lemma SomeMeaningAgrees(f: string) returns (admits: (seq<string>, string) -> bool)
    ensures Agrees(admits) && !admits(["src/[ab].c"], f)
  {
    admits := (patterns, g) => FilterIsUnderstood(patterns) && exists i :: 0 <= i < |patterns| && GlobMatch(patterns[i], g);
    ClassNotUnderstood();
  }

  /**
   Otherwise the report can be empty with a job unseen: upstream runs the job on every change, and
   the branch filters it with a class. There is a meaning of the filters, agreeing on all that is
   understood, under which upstream really runs the job and the branch never did.
   */
  lemma ClassHidesUnseen(path: string, job: string, f: string) returns (admits: (seq<string>, string) -> bool)
    requires IsWorkflowPath(path)
    ensures Agrees(admits)
    ensures var upstream, branch := [Unfiltered(path, job)], [WithClass(path, job)];
            && JobIds(upstream, [f]) - JobIds(branch, [f]) == {}
            && ReallyFaced(admits, upstream, [f]) != {} && ReallyFaced(admits, branch, [f]) == {}
  {
    hide IsWorkflowPath, JobIds, ReallyFaced, Agrees;
    admits := SomeMeaningAgrees(f);
    ClassHidesUnder(admits, path, job, f);
  }

  // ----- more changed files -----

  lemma AnyMatchAppend(patterns: seq<string>, a: seq<string>, b: seq<string>)
    ensures (exists j :: 0 <= j < |a + b| && AnyMatch(patterns, (a + b)[j]))
       <==> (exists j :: 0 <= j < |a| && AnyMatch(patterns, a[j])) || (exists j :: 0 <= j < |b| && AnyMatch(patterns, b[j]))
    ensures (forall j :: 0 <= j < |a + b| ==> AnyMatch(patterns, (a + b)[j]))
       <==> (forall j :: 0 <= j < |a| ==> AnyMatch(patterns, a[j])) && (forall j :: 0 <= j < |b| ==> AnyMatch(patterns, b[j]))
  {
    hide AnyMatch;
    var c := a + b;
    assert forall j :: 0 <= j < |a| ==> c[j] == a[j];
    assert forall j :: 0 <= j < |b| ==> c[|a| + j] == b[j];
    assert forall j :: |a| <= j < |c| ==> c[j] == b[j - |a|];
  }

  predicate OneSided(file: File) {
    PullRequest(file.doc).Some? ==> PullRequest(file.doc).value.paths.None? || PullRequest(file.doc).value.pathsIgnore.None?
  }

  /**
   A file that gates one of two changes gates the two together; and unless it filters both ways it
   gates the two together only if it gates one of them.
   */
  lemma GatesUnion(file: File, a: seq<string>, b: seq<string>)
    ensures Gates(file, a) || Gates(file, b) ==> Gates(file, a + b)
    ensures OneSided(file) ==> (Gates(file, a + b) <==> Gates(file, a) || Gates(file, b))
  {
    hide AnyMatch, FilterIsUnderstood, IsWorkflowPath;
    if PullRequest(file.doc).Some? {
      var filter := PullRequest(file.doc).value;
      if filter.paths.Some? { AnyMatchAppend(filter.paths.value, a, b); }
      if filter.pathsIgnore.Some? { AnyMatchAppend(filter.pathsIgnore.value, a, b); }
    }
  }

  /** The result grows with the change, and distributes over it when no workflow filters both ways. */
  lemma JobIdsUnion(tree: seq<File>, a: seq<string>, b: seq<string>)
    ensures JobIds(tree, a) + JobIds(tree, b) <= JobIds(tree, a + b)
    ensures (forall file :: file in tree ==> OneSided(file)) ==>
              JobIds(tree, a + b) == JobIds(tree, a) + JobIds(tree, b)
  {
    hide Gates, OneSided;
    forall file | file in tree { GatesUnion(file, a, b); }
  }

  /** `f` is included but ignored, `g` neither. */
  predicate Splits(paths: seq<string>, ignored: seq<string>, f: string, g: string) {
    AnyMatch(paths, f) && AnyMatch(ignored, f) && !AnyMatch(paths, g) && !AnyMatch(ignored, g)
  }

  lemma BothWaysGates(file: File, paths: seq<string>, ignored: seq<string>, changed: seq<string>)
    requires IsWorkflowPath(file.path) && PullRequest(file.doc) == Some(Filter(Some(paths), Some(ignored)))
    requires FilterIsUnderstood(paths) && FilterIsUnderstood(ignored)
    ensures Gates(file, changed)
       <==> (exists j :: 0 <= j < |changed| && AnyMatch(paths, changed[j]))
            && (exists j :: 0 <= j < |changed| && !AnyMatch(ignored, changed[j]))
  {
    hide AnyMatch, FilterIsUnderstood, IsWorkflowPath, PullRequest;
  }

  /** `file` gates two changes together only if it gates one of them. */
  ghost predicate Distributes(file: File, a: seq<string>, b: seq<string>) {
    Gates(file, a + b) ==> Gates(file, a) || Gates(file, b)
  }

  /** The workflow filters both ways, in patterns that are understood, and two paths split it. */
  ghost predicate IsSplit(file: File) {
    && IsWorkflowPath(file.path) && PullRequest(file.doc).Some?
    && var filter := PullRequest(file.doc).value;
       && filter.paths.Some? && filter.pathsIgnore.Some?
       && FilterIsUnderstood(filter.paths.value) && FilterIsUnderstood(filter.pathsIgnore.value)
       && exists f, g :: Splits(filter.paths.value, filter.pathsIgnore.value, f, g)
  }

  /**
   A workflow distributes over changes exactly when no two paths split it: together the included one
   gets the change past `paths` and the other past `paths-ignore`, and neither does so alone.
   */
  lemma DistributesExactly(file: File)
    ensures (forall a, b :: Distributes(file, a, b)) <==> !IsSplit(file)
  {
    hide AnyMatch, FilterIsUnderstood, IsWorkflowPath, PullRequest, Gates;
    if IsSplit(file) {
      var filter := PullRequest(file.doc).value;
      var paths, ignored := filter.paths.value, filter.pathsIgnore.value;
      var f, g :| Splits(paths, ignored, f, g);
      BothWaysGates(file, paths, ignored, [f] + [g]);
      BothWaysGates(file, paths, ignored, [f]);
      BothWaysGates(file, paths, ignored, [g]);
      assert ([f] + [g])[0] == f && ([f] + [g])[1] == g;
      assert !Distributes(file, [f], [g]);
    } else {
      forall a, b
        ensures Distributes(file, a, b)
      {
        UnsplitDistributes(file, a, b);
      }
    }
  }

  lemma UnsplitDistributes(file: File, a: seq<string>, b: seq<string>)
    requires !IsSplit(file)
    ensures Distributes(file, a, b)
  {
    hide AnyMatch, FilterIsUnderstood, IsWorkflowPath, Gates, PullRequest;
    GatesUnion(file, a, b);
    if IsWorkflowPath(file.path) && PullRequest(file.doc).Some? && !OneSided(file) {
      var filter := PullRequest(file.doc).value;
      var paths, ignored := filter.paths.value, filter.pathsIgnore.value;
      assert filter == Filter(Some(paths), Some(ignored));
      if FilterIsUnderstood(paths) && FilterIsUnderstood(ignored) {
        BothWaysDistribute(file, paths, ignored, a, b);
      } else {
        NotUnderstoodDistributes(file, paths, ignored, a, b);
      }
    } else if !OneSided(file) {
      NeverGates(file, a + b);
    }
  }

  lemma NeverGates(file: File, changed: seq<string>)
    requires !IsWorkflowPath(file.path) || PullRequest(file.doc).None?
    ensures !Gates(file, changed)
  {
  }

  /** With one of its lists not understood, a workflow that filters both ways decides by the other alone. */
  lemma NotUnderstoodDistributes(file: File, paths: seq<string>, ignored: seq<string>, a: seq<string>, b: seq<string>)
    requires PullRequest(file.doc) == Some(Filter(Some(paths), Some(ignored)))
    requires !FilterIsUnderstood(paths) || !FilterIsUnderstood(ignored)
    ensures Distributes(file, a, b)
  {
    hide AnyMatch, FilterIsUnderstood, IsWorkflowPath, PullRequest;
    AnyMatchAppend(paths, a, b);
    AnyMatchAppend(ignored, a, b);
  }

  lemma BothWaysDistribute(file: File, paths: seq<string>, ignored: seq<string>, a: seq<string>, b: seq<string>)
    requires IsWorkflowPath(file.path) && PullRequest(file.doc) == Some(Filter(Some(paths), Some(ignored)))
    requires FilterIsUnderstood(paths) && FilterIsUnderstood(ignored)
    requires forall f, g :: !Splits(paths, ignored, f, g)
    ensures Distributes(file, a, b)
  {
    hide AnyMatch, FilterIsUnderstood, IsWorkflowPath, PullRequest, Gates;
    BothWaysGates(file, paths, ignored, a);
    BothWaysGates(file, paths, ignored, b);
    BothWaysGates(file, paths, ignored, a + b);
    AnyMatchAppend(paths, a, b);
    AnyMatchAppend(ignored, a, b);
    if Gates(file, a + b) {
      var j :| 0 <= j < |a + b| && AnyMatch(paths, (a + b)[j]);
      var k :| 0 <= k < |a + b| && !AnyMatch(ignored, (a + b)[k]);
      assert !Splits(paths, ignored, (a + b)[j], (a + b)[k]);
    }
  }
}
