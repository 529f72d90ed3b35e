/**
 The boot script on the device (`mpy_launch_debugpy.py`): taking and giving back the REPL's stream,
 and the loop that runs the target under the debugger again and again. Everything the script calls
 is a step with an arbitrary outcome, fixed beforehand in a `Script`.
 */
module Launcher {
  import opened Wrappers
  import opened Text

  // ----- what the script may meet -----

  /** A console stream that may sit in the dupterm slot; `Framing` is the wrapper this run installs. */
  datatype Stream = Port(id: nat, hasLiveness: bool) | Framing

  /** How `mux.attach` ends. Only an `Exception` is caught there; an interrupt passes, the port recorded or not. */
  datatype Attach = Attached | Refused | Interrupted(recorded: bool)

  /** The steps of taking the REPL's stream. */
  datatype Take = Take(muxImports: bool, installs: bool, attach: Attach, restores: bool)

  datatype Channel = Tcp | Path(opens: bool) | Repl(take: Take)

  datatype Client = Configured | Gone(disconnects: bool) | ClientError

  /** How arming the tracer ends; a failed call may have left its hook installed. */
  datatype Arming = Armed | NotArmed(hookLeft: bool)

  datatype End = Returned | ImportFailed | NoMethod | Raised | RestartRequested

  datatype Wait = Again | NoClient | WaitError

  /**
   One pass of the loop. `modules` is what `sys.modules` holds when the target's part of it is over.
   `reports` and `warns` say whether the client's console takes the two marker lines.
   */
  datatype Pass = Pass(reports: bool, probeFires: bool, warns: bool, arming: Arming, modules: set<string>, end: End, wait: Wait)

  /** A whole run. `loaded` is what the imports before the loop add; None when `debugpy` cannot be imported. */
  datatype Script = Script(hasSettrace: bool, loaded: Option<set<string>>, argsParse: bool, loop: bool, channel: Channel,
                           listens: bool, capsRead: bool, client: Client, passes: seq<Pass>, disconnects: bool,
                           detaches: bool, restores: bool)

  /** What is seen of a run, in order. */
  datatype Event =
    | Ready(replDap: bool, slot: Option<Stream>)
    | Restart(iteration: nat, evicted: set<string>)
    | Degraded
    | Ran(traced: bool, before: set<string>, after: set<string>)
    | Restarting
    | Completed
    | Waiting(traced: bool)

  // ----- the loop -----

  datatype Outcome = Outcome(log: seq<Event>, modules: set<string>, tracing: bool, raised: bool)

  /** The events of iteration `n` up to the arming of the tracer, and whether it gets there. */
  function Lead(p: Pass, baseline: set<string>, modules: set<string>, n: nat): (seq<Event>, bool) {
    if n == 1 then ([], true)
    else
      var marker := [Restart(n, modules - baseline)];
      if !p.reports then (marker, false)
      else if p.probeFires then (marker, true)
      else (marker + [Degraded], p.warns)
  }

  /** The modules iteration `n` starts with. */
  function Kept(baseline: set<string>, modules: set<string>, n: nat): set<string> {
    if n == 1 then modules else modules * baseline
  }

  /** The events behind the target's end, and whether the loop goes on. */
  function Tail(p: Pass, loop: bool): (seq<Event>, bool) {
    match p.end
    case RestartRequested => ([Restarting], loop)
    case Returned => ([Completed] + (if loop then [Waiting(false)] else []), loop && p.wait.Again?)
    case _ => ([], false)
  }

  predicate TailRaises(p: Pass, loop: bool) {
    p.end.Raised? || (p.end.Returned? && loop && p.wait.WaitError?)
  }

  /**
   The loop from iteration `n` on. A script that has no passes left stands for an interrupt before
   the next iteration.
   */
  function Loop(passes: seq<Pass>, loop: bool, baseline: set<string>, modules: set<string>, n: nat): (o: Outcome)
    requires n > 0
    decreases |passes|
  {
    if passes == [] then Outcome([], modules, false, true)
    else
      var p := passes[0];
      var (lead, goes) := Lead(p, baseline, modules, n);
      var kept := Kept(baseline, modules, n);
      if !goes then Outcome(lead, kept, false, true)
      else if p.arming.NotArmed? then Outcome(lead, kept, p.arming.hookLeft, true)
      else
        var ran := lead + [Ran(true, kept, p.modules)];
        var (tail, again) := Tail(p, loop);
        if !again then Outcome(ran + tail, p.modules, false, TailRaises(p, loop))
        else
          var later := Loop(passes[1..], loop, baseline, p.modules, n + 1);
          Outcome(ran + tail + later.log, later.modules, later.tracing, later.raised)
  }

  // ----- what holds of every run of the loop -----

  function Turn(e: Event): seq<Event> {
    if e.Restart? || e.Ran? then [e] else []
  }

  /** The restart markers and the runs of the target, without the other events. */
  function Turns(log: seq<Event>): seq<Event> {
    if log == [] then [] else Turn(log[0]) + Turns(log[1..])
  }

  lemma {:induction false} TurnsAppend(a: seq<Event>, b: seq<Event>)
    ensures Turns(a + b) == Turns(a) + Turns(b)
  {
    hide Turn;
    if a == [] {
      assert a + b == b && [] + Turns(b) == Turns(b);
    } else {
      assert (a + b)[1..] == a[1..] + b;
      TurnsAppend(a[1..], b);
      Associative(Turn(a[0]), Turns(a[1..]), Turns(b));
    }
  }

  /**
   Runs and markers take turns, a run first, from iteration `n` on. The marker behind a run carries
   the number of the next one and names exactly the modules the run left outside the baseline; the
   run behind it starts with exactly the others. Every run is traced.
   */
  predicate TakeTurns(turns: seq<Event>, baseline: set<string>, n: nat) {
    forall i :: 0 <= i < |turns| ==> InTurn(turns, baseline, n, i)
  }

  predicate InTurn(turns: seq<Event>, baseline: set<string>, n: nat, i: nat)
    requires i < |turns|
  {
    if i % 2 == 0 then
      turns[i].Ran? && turns[i].traced
      && (i > 0 ==> turns[i - 2].Ran? && turns[i].before == turns[i - 2].after * baseline)
    else turns[i - 1].Ran? && turns[i] == Restart(n + (i + 1) / 2, turns[i - 1].after - baseline)
  }

  /** A run and a marker put in front. */
  lemma TurnsNext(run: Event, next: Event, turns: seq<Event>, baseline: set<string>, n: nat)
    requires run.Ran? && run.traced
    requires next.Ran? && next.before == run.after * baseline && TakeTurns([next] + turns, baseline, n + 1)
    ensures TakeTurns([run] + ([Restart(n + 1, run.after - baseline)] + ([next] + turns)), baseline, n)
  {
    var later := [next] + turns;
    var all := [run] + ([Restart(n + 1, run.after - baseline)] + later);
    forall i | 0 <= i < |all|
      ensures InTurn(all, baseline, n, i)
    {
      if i > 1 {
        assert InTurn(later, baseline, n + 1, i - 2);
      }
    }
  }

  /** Of the events between two turns none is a run or a marker. */
  lemma TailTurns(p: Pass, loop: bool)
    ensures Turns(Tail(p, loop).0) == []
  {
    assert Turns([Completed] + [Waiting(false)]) == [] by { TurnsAppend([Completed], [Waiting(false)]); }
    assert Turns([Completed] + []) == [];
  }

  lemma LeadTurns(p: Pass, baseline: set<string>, modules: set<string>, n: nat)
    ensures Turns(Lead(p, baseline, modules, n).0) == if n == 1 then [] else [Restart(n, modules - baseline)]
  {
    TurnsAppend([Restart(n, modules - baseline)], [Degraded]);
  }

  lemma AloneTakesTurns(run: Event, baseline: set<string>, n: nat)
    requires run.Ran? && run.traced
    ensures TakeTurns([run] + [], baseline, n) && TakeTurns([run] + [Restart(n + 1, run.after - baseline)], baseline, n)
  {
  }

  /** A later iteration's turns follow those of the run before it. */
  lemma {:induction false} LoopTurnsLater(passes: seq<Pass>, loop: bool, baseline: set<string>, run: Event, n: nat)
    requires n > 1 && run.Ran? && run.traced
    ensures TakeTurns([run] + Turns(Loop(passes, loop, baseline, run.after, n).log), baseline, n - 1)
    decreases |passes|
  {
    hide Lead, Tail, TakeTurns;
    AloneTakesTurns(run, baseline, n - 1);
    if passes != [] {
      var p := passes[0];
      LeadTurns(p, baseline, run.after, n);
      if Lead(p, baseline, run.after, n).1 && p.arming.Armed? {
        var next := Ran(true, run.after * baseline, p.modules);
        var later := Loop(passes[1..], loop, baseline, p.modules, n + 1);
        LoopTurnsOne(passes, loop, baseline, run.after, n);
        if Tail(p, loop).1 {
          LoopTurnsLater(passes[1..], loop, baseline, next, n + 1);
          TurnsNext(run, next, Turns(later.log), baseline, n - 1);
        } else {
          AloneTakesTurns(next, baseline, n);
          TurnsNext(run, next, [], baseline, n - 1);
        }
      }
    }
  }

  lemma FourTurns(lead: seq<Event>, run: Event, tail: seq<Event>, later: seq<Event>)
    requires run.Ran? && Turns(tail) == []
    ensures Turns(lead + [run] + tail + later) == Turns(lead) + ([run] + Turns(later))
  {
    hide Turns;
    TurnsAppend(lead + [run] + tail, later);
    TurnsAppend(lead + [run], tail);
    TurnsAppend(lead, [run]);
    assert Turns([run]) == [run] by { OneTurn(run); }
    assert Turns(lead) + [run] + [] == Turns(lead) + [run];
    Associative(Turns(lead), [run], Turns(later));
  }

  lemma OneTurn(run: Event)
    requires run.Ran?
    ensures Turns([run]) == [run]
  {
  }

  /** The turns of an iteration that gets to run the target. */
  lemma LoopTurnsOne(passes: seq<Pass>, loop: bool, baseline: set<string>, modules: set<string>, n: nat)
    requires n > 0 && passes != [] && Lead(passes[0], baseline, modules, n).1 && passes[0].arming.Armed?
    ensures Turns(Loop(passes, loop, baseline, modules, n).log)
         == Turns(Lead(passes[0], baseline, modules, n).0)
            + ([Ran(true, Kept(baseline, modules, n), passes[0].modules)]
               + if Tail(passes[0], loop).1 then Turns(Loop(passes[1..], loop, baseline, passes[0].modules, n + 1).log) else [])
  {
    hide Lead, Tail, Turns;
    var p := passes[0];
    var lead, tail := Lead(p, baseline, modules, n).0, Tail(p, loop).0;
    var run := Ran(true, Kept(baseline, modules, n), p.modules);
    TailTurns(p, loop);
    if Tail(p, loop).1 {
      FourTurns(lead, run, tail, Loop(passes[1..], loop, baseline, p.modules, n + 1).log);
    } else {
      FourTurns(lead, run, tail, []);
      AppendNone(lead + [run] + tail);
      NoTurns();
    }
  }

  lemma NoTurns()
    ensures Turns([]) == []
  {
  }

  /**
   Over every run of the loop: the first run starts with the modules there are, runs and restart
   markers take turns with the numbers 2, 3 and so on, and each new run starts with what the run
   before it left of the baseline.
   */
  lemma LoopTakesTurns(passes: seq<Pass>, loop: bool, baseline: set<string>, modules: set<string>)
    ensures var turns := Turns(Loop(passes, loop, baseline, modules, 1).log);
            TakeTurns(turns, baseline, 1) && (turns != [] ==> turns[0].Ran? && turns[0].before == modules)
  {
    hide Tail, TakeTurns;
    NobodysTurn(baseline);
    if passes != [] {
      var p := passes[0];
      LeadTurns(p, baseline, modules, 1);
      var run := Ran(true, modules, p.modules);
      AloneTakesTurns(run, baseline, 1);
      if Lead(p, baseline, modules, 1).1 && p.arming.Armed? {
        LoopTurnsOne(passes, loop, baseline, modules, 1);
        var rest := if Tail(p, loop).1 then Turns(Loop(passes[1..], loop, baseline, p.modules, 2).log) else [];
        if Tail(p, loop).1 {
          LoopTurnsLater(passes[1..], loop, baseline, run, 2);
        }
        assert [] + ([run] + rest) == [run] + rest;
        assert TakeTurns([run] + rest, baseline, 1);
        assert ([run] + rest)[0] == run;
      } else {
        NoTurns();
      }
    }
  }

  lemma NobodysTurn(baseline: set<string>)
    ensures TakeTurns([], baseline, 1)
  {
  }

  /** Inside the loop the target runs traced, nothing else does, and the endpoint is not announced again. */
  predicate WellTraced(e: Event) {
    (e.Ran? ==> e.traced) && (e.Waiting? ==> !e.traced) && !e.Ready?
  }

  lemma {:induction false} LoopWellTraced(passes: seq<Pass>, loop: bool, baseline: set<string>, modules: set<string>, n: nat)
    requires n > 0
    ensures var o := Loop(passes, loop, baseline, modules, n);
            && (forall i :: 0 <= i < |o.log| ==> WellTraced(o.log[i]))
            && (o.tracing ==> exists i :: 0 <= i < |passes| && passes[i].arming == NotArmed(true))
    decreases |passes|
  {
    hide Kept, TailRaises;
    if passes != [] {
      var p := passes[0];
      OneWellTraced(p, loop, baseline, modules, n);
      hide Lead, Tail, WellTraced;
      assert p.arming == NotArmed(true) ==> passes[0].arming == NotArmed(true);
      if Lead(p, baseline, modules, n).1 && p.arming.Armed? && Tail(p, loop).1 {
        LoopWellTraced(passes[1..], loop, baseline, p.modules, n + 1);
        if Loop(passes[1..], loop, baseline, p.modules, n + 1).tracing {
          var i :| 0 <= i < |passes[1..]| && passes[1..][i].arming == NotArmed(true);
          var j := i + 1;
          assert passes[j].arming == NotArmed(true);
        }
      }
    }
  }

  lemma OneWellTraced(p: Pass, loop: bool, baseline: set<string>, modules: set<string>, n: nat)
    ensures forall e :: e in Lead(p, baseline, modules, n).0 ==> WellTraced(e)
    ensures forall e :: e in Tail(p, loop).0 ==> WellTraced(e)
    ensures forall before, after :: WellTraced(Ran(true, before, after))
  {
  }

  /** Iteration `n` gets as far as arming the tracer. */
  predicate IsAnnounced(p: Pass, n: nat) {
    n == 1 || (p.reports && (p.probeFires || p.warns))
  }

  /** A pass in which nothing fails and after which a looping script goes on. */
  predicate IsSmooth(p: Pass) {
    p.reports && (p.probeFires || p.warns) && p.arming.Armed? && (p.end.RestartRequested? || (p.end.Returned? && p.wait.Again?))
  }

  /** As long as nothing fails and restarts are asked for, a looping script runs the target again. */
  lemma {:induction false} EveryPassRuns(passes: seq<Pass>, baseline: set<string>, modules: set<string>, n: nat)
    requires n > 0 && forall i :: 0 <= i < |passes| ==> IsSmooth(passes[i])
    ensures var turns := Turns(Loop(passes, true, baseline, modules, n).log);
            |turns| == 2 * |passes| - if n == 1 && passes != [] then 1 else 0
    decreases |passes|
  {
    hide Turns;
    NoTurns();
    if passes != [] {
      var p := passes[0];
      assert IsSmooth(p);
      LeadTurns(p, baseline, modules, n);
      LoopTurnsOne(passes, true, baseline, modules, n);
      EveryPassRuns(passes[1..], baseline, p.modules, n + 1);
    }
  }

  /** Without the loop the target runs at most once. */
  lemma RunsOnce(passes: seq<Pass>, baseline: set<string>, modules: set<string>)
    ensures |Turns(Loop(passes, false, baseline, modules, 1).log)| <= 1
  {
    hide Turns;
    NoTurns();
    if passes != [] && passes[0].arming.Armed? {
      LeadTurns(passes[0], baseline, modules, 1);
      LoopTurnsOne(passes, false, baseline, modules, 1);
    }
  }

  // ----- how far the loop gets, from the fields of its passes -----

  /** The target is run in a pass that the loop gets to. */
  predicate RunsTarget(p: Pass, n: nat) {
    IsAnnounced(p, n) && p.arming == Armed
  }

  /** There is something to go on for: the target was restarted, or it is over and the client wants it again. */
  predicate LeadsOn(p: Pass, n: nat) {
    RunsTarget(p, n) && (p.end == RestartRequested || (p.end == Returned && p.wait == Again))
  }

  /** A looping script gets behind its first `k` passes. */
  predicate Reaches(passes: seq<Pass>, loop: bool, n: nat, k: nat) {
    k <= |passes| && (k > 0 ==> loop) && forall i :: 0 <= i < k ==> LeadsOn(passes[i], n + i)
  }

  /** An exception leaves the loop in this pass. */
  predicate Escapes(p: Pass, loop: bool, n: nat) {
    !RunsTarget(p, n) || p.end == Raised || (p.end == Returned && loop && p.wait == WaitError)
  }

  /** What is loaded when the loop ends in pass `last`: what its target left, or what the one before left, evicted for a re-run. */
  function ModulesLeft(passes: seq<Pass>, baseline: set<string>, modules: set<string>, n: nat, last: nat): set<string>
    requires last <= |passes|
  {
    var before := if last == 0 then modules else passes[last - 1].modules;
    if last == |passes| then before
    else if RunsTarget(passes[last], n + last) then passes[last].modules
    else if n + last == 1 then before
    else before * baseline
  }

  lemma ReachesLater(passes: seq<Pass>, n: nat, k: nat)
    requires passes != [] && LeadsOn(passes[0], n)
    ensures Reaches(passes[1..], true, n + 1, k) <==> Reaches(passes, true, n, k + 1)
  {
    hide LeadsOn;
    if Reaches(passes[1..], true, n + 1, k) {
      forall i | 0 <= i < k + 1
        ensures LeadsOn(passes[i], n + i)
      {
        assert i > 0 ==> passes[i] == passes[1..][i - 1] && LeadsOn(passes[1..][i - 1], n + 1 + (i - 1));
      }
    }
    if Reaches(passes, true, n, k + 1) {
      forall i | 0 <= i < k
        ensures LeadsOn(passes[1..][i], n + 1 + i)
      {
        assert LeadsOn(passes[i + 1], n + (i + 1));
      }
    }
  }

  /** Where the first run stands among the turns. */
  function FirstRun(n: nat): nat {
    if n == 1 then 0 else 1
  }

  /** How many of the passes up to `last` run the target. */
  function RunsUpTo(passes: seq<Pass>, n: nat, last: nat): nat
    requires last <= |passes|
  {
    if last < |passes| && RunsTarget(passes[last], n + last) then last + 1 else last
  }

  /** How many passes up to `last` begin with a marker. */
  function MarkedUpTo(passes: seq<Pass>, n: nat, last: nat): nat
    requires last <= |passes|
  {
    (if last < |passes| then last + 1 else last) - if n == 1 && passes != [] then 1 else 0
  }

  /** The turns of the passes up to `last`: one run in each, the last one only if it runs, and a marker before each run but the first. */
  predicate TurnsUpTo(turns: seq<Event>, passes: seq<Pass>, n: nat, last: nat)
    requires last <= |passes|
  {
    && |turns| == RunsUpTo(passes, n, last) + MarkedUpTo(passes, n, last)
    && forall i :: 0 <= i < RunsUpTo(passes, n, last) && i < |passes| ==> RunStands(turns, passes, n, i)
  }

  /** The run of pass `i` is where it should be. */
  predicate RunStands(turns: seq<Event>, passes: seq<Pass>, n: nat, i: nat)
    requires i < |passes|
  {
    var k := 2 * i + FirstRun(n);
    k < |turns| && turns[k].Ran? && turns[k].after == passes[i].modules
  }

  lemma OneMorePass(p: Pass, passes: seq<Pass>, n: nat, last: nat)
    requires n > 0 && last <= |passes|
    ensures RunsUpTo([p] + passes, n, last + 1) == RunsUpTo(passes, n + 1, last) + 1
    ensures MarkedUpTo([p] + passes, n, last + 1) == MarkedUpTo(passes, n + 1, last) + FirstRun(n)
  {
    hide RunsTarget;
    var l := last + 1;
    assert l < |[p] + passes| ==> ([p] + passes)[l] == passes[last] && n + l == n + 1 + last;
  }

  lemma TurnsUpToNext(p: Pass, passes: seq<Pass>, n: nat, lead: seq<Event>, run: Event, turns: seq<Event>, last: nat)
    requires n > 0 && last <= |passes| && run.Ran? && run.after == p.modules && |lead| == FirstRun(n)
    requires TurnsUpTo(turns, passes, n + 1, last)
    ensures TurnsUpTo(lead + ([run] + turns), [p] + passes, n, last + 1)
  {
    hide RunsUpTo, MarkedUpTo;
    OneMorePass(p, passes, n, last);
    var all, more := lead + ([run] + turns), [p] + passes;
    assert RunStands(all, more, n, 0);
    forall i | 0 < i < RunsUpTo(more, n, last + 1) && i < |more|
      ensures RunStands(all, more, n, i)
    {
      var j := i - 1;
      assert RunStands(turns, passes, n + 1, j);
      RunStandsNext(p, passes, n, lead, run, turns, j);
    }
    hide RunStands;
  }

  lemma RunStandsNext(p: Pass, passes: seq<Pass>, n: nat, lead: seq<Event>, run: Event, turns: seq<Event>, i: nat)
    requires n > 0 && i < |passes| && |lead| == FirstRun(n) && RunStands(turns, passes, n + 1, i)
    ensures RunStands(lead + ([run] + turns), [p] + passes, n, i + 1)
  {
    assert ([p] + passes)[i + 1] == passes[i];
    assert (lead + ([run] + turns))[2 * (i + 1) + |lead|] == turns[2 * i + 1];
  }

  lemma StopsHere(passes: seq<Pass>, loop: bool, baseline: set<string>, modules: set<string>, n: nat)
    requires n > 0 && passes != [] && !(loop && LeadsOn(passes[0], n))
    ensures var o := Loop(passes, loop, baseline, modules, n);
            && TurnsUpTo(Turns(o.log), passes, n, 0) && (o.raised <==> Escapes(passes[0], loop, n))
            && (o.tracing <==> IsAnnounced(passes[0], n) && passes[0].arming == NotArmed(true))
            && o.modules == ModulesLeft(passes, baseline, modules, n, 0)
  {
    hide Turns;
    LeadTurns(passes[0], baseline, modules, n);
    if RunsTarget(passes[0], n) {
      LoopTurnsOne(passes, loop, baseline, modules, n);
    }
  }

  /** The loop ends in pass `last`, the first not to lead on. The target runs once in every pass before, and nothing else does. */
  lemma {:induction false} LoopStops(passes: seq<Pass>, loop: bool, baseline: set<string>, modules: set<string>, n: nat)
    returns (last: nat)
    requires n > 0
    ensures var o := Loop(passes, loop, baseline, modules, n);
            && Reaches(passes, loop, n, last) && !Reaches(passes, loop, n, last + 1)
            && TurnsUpTo(Turns(o.log), passes, n, last)
            && (o.raised <==> last == |passes| || Escapes(passes[last], loop, n + last))
            && (o.tracing <==> last < |passes| && IsAnnounced(passes[last], n + last) && passes[last].arming == NotArmed(true))
            && o.modules == ModulesLeft(passes, baseline, modules, n, last)
    decreases |passes|
  {
    hide Turns, TurnsUpTo, Escapes, ModulesLeft;
    if passes == [] {
      last := 0;
      assert TurnsUpTo(Turns([]), [], n, 0) && ModulesLeft([], baseline, modules, n, 0) == modules by {
        NoTurns();
        NothingYet(baseline, modules, n);
      }
    } else if loop && LeadsOn(passes[0], n) {
      var p := passes[0];
      var later := LoopStops(passes[1..], true, baseline, p.modules, n + 1);
      last := later + 1;
      ReachesLater(passes, n, later);
      ReachesLater(passes, n, later + 1);
      LeadTurns(p, baseline, modules, n);
      LoopTurnsOne(passes, true, baseline, modules, n);
      var run := Ran(true, Kept(baseline, modules, n), p.modules);
      TurnsUpToNext(p, passes[1..], n, Turns(Lead(p, baseline, modules, n).0), run,
                    Turns(Loop(passes[1..], true, baseline, p.modules, n + 1).log), later);
      assert passes == [p] + passes[1..];
      ModulesLeftLater(passes, baseline, modules, n, later);
    } else {
      last := 0;
      StopsHere(passes, loop, baseline, modules, n);
    }
  }

  lemma NothingYet(baseline: set<string>, modules: set<string>, n: nat)
    ensures TurnsUpTo([], [], n, 0) && ModulesLeft([], baseline, modules, n, 0) == modules
  {
  }

  lemma ModulesLeftLater(passes: seq<Pass>, baseline: set<string>, modules: set<string>, n: nat, last: nat)
    requires n > 0 && last < |passes|
    ensures ModulesLeft(passes, baseline, modules, n, last + 1)
         == ModulesLeft(passes[1..], baseline, passes[0].modules, n + 1, last)
  {
    hide RunsTarget;
    var l := last + 1;
    assert l < |passes| ==> passes[l] == passes[1..][last] && n + l == n + 1 + last;
    assert last > 0 ==> passes[1..][last - 1] == passes[last];
  }

  lemma ReachesBefore(passes: seq<Pass>, loop: bool, n: nat, j: nat, k: nat)
    ensures j <= k && Reaches(passes, loop, n, k) ==> Reaches(passes, loop, n, j)
  {
    hide LeadsOn;
  }

  /** The loop gets to pass `k`, whose arming fails and leaves its hook. */
  predicate LeavesHook(passes: seq<Pass>, loop: bool, n: nat, k: nat) {
    k < |passes| && Reaches(passes, loop, n, k) && IsAnnounced(passes[k], n + k) && passes[k].arming == NotArmed(true)
  }

  /** Tracing is left on exactly by a pass that the loop gets to, and whose arming fails and leaves its hook. */
  lemma TracingLeftOn(passes: seq<Pass>, loop: bool, baseline: set<string>, modules: set<string>, n: nat)
    requires n > 0
    ensures Loop(passes, loop, baseline, modules, n).tracing <==> exists k: nat :: LeavesHook(passes, loop, n, k)
  {
    var last := LoopStops(passes, loop, baseline, modules, n);
    hide Loop, TurnsUpTo;
    var next := last + 1;
    forall k: nat | LeavesHook(passes, loop, n, k)
      ensures k == last
    {
      assert !LeadsOn(passes[k], n + k);
      ReachesBefore(passes, loop, n, next, k);
    }
    if Loop(passes, loop, baseline, modules, n).tracing {
      assert LeavesHook(passes, loop, n, last);
    }
  }

  /** A pass shows what it does, and a loop what its passes show. */
  lemma LoopNext(passes: seq<Pass>, loop: bool, baseline: set<string>, modules: set<string>, n: nat)
    requires n > 0 && passes != []
    ensures Loop(passes, loop, baseline, modules, n).log
         == Loop([passes[0]], loop, baseline, modules, n).log
            + if loop && LeadsOn(passes[0], n) then Loop(passes[1..], loop, baseline, passes[0].modules, n + 1).log else []
  {
    hide Kept;
    var p := passes[0];
    var ran := Lead(p, baseline, modules, n).0 + [Ran(true, Kept(baseline, modules, n), p.modules)] + Tail(p, loop).0;
    AppendNone(ran);
    assert [p][1..] == [];
  }

  /** The events of one pass, and what each of them directly follows. */
  lemma PassShows(p: Pass, loop: bool, baseline: set<string>, modules: set<string>, n: nat)
    requires n > 0
    ensures var log := Loop([p], loop, baseline, modules, n).log;
            && (Degraded in log <==> n > 1 && p.reports && !p.probeFires)
            && (Completed in log <==> RunsTarget(p, n) && p.end == Returned)
            && (Waiting(false) in log <==> RunsTarget(p, n) && p.end == Returned && loop)
            && (Restarting in log <==> RunsTarget(p, n) && p.end == RestartRequested)
            && forall i :: 0 <= i < |log| ==> InPlace(log, i)
  {
    var lead, tail := Lead(p, baseline, modules, n).0, Tail(p, loop).0;
    var run := Ran(true, Kept(baseline, modules, n), p.modules);
    assert [p][1..] == [] && Loop([], loop, baseline, p.modules, n + 1).log == [];
    AppendNone(lead + [run] + tail);
    LeadShows(p, baseline, modules, n);
    TailShows(p, loop, run);
    assert Lead(p, baseline, modules, n).1 == IsAnnounced(p, n);
    hide Lead, Tail, Kept;
    var log := Loop([p], loop, baseline, modules, n).log;
    if RunsTarget(p, n) {
      assert log == lead + [run] + tail;
      Associative(lead, [run], tail);
      InPlaceAppend(lead, [run] + tail);
    } else {
      assert log == lead;
    }
  }

  lemma LeadShows(p: Pass, baseline: set<string>, modules: set<string>, n: nat)
    ensures var lead := Lead(p, baseline, modules, n).0;
            && (Degraded in lead <==> n != 1 && p.reports && !p.probeFires)
            && Completed !in lead && Waiting(false) !in lead && Restarting !in lead
            && (forall i :: 0 <= i < |lead| ==> InPlace(lead, i))
            && (lead != [] ==> lead[|lead| - 1].Restart? || lead[|lead| - 1].Degraded?)
  {
  }

  lemma TailShows(p: Pass, loop: bool, run: Event)
    requires run.Ran?
    ensures var tail := Tail(p, loop).0;
            && Degraded !in tail && (Completed in tail <==> p.end == Returned) && (Waiting(false) in tail <==> p.end == Returned && loop)
            && (Restarting in tail <==> p.end == RestartRequested)
            && (forall i :: 0 <= i < |[run] + tail| ==> InPlace([run] + tail, i))
            && forall i :: 0 < i < |[run] + tail| ==>
                  ([run] + tail)[i].Completed? || ([run] + tail)[i].Restarting? || ([run] + tail)[i].Waiting?
  {
  }

  lemma InPlaceAppend(lead: seq<Event>, rest: seq<Event>)
    requires forall i :: 0 <= i < |lead| ==> InPlace(lead, i)
    requires lead != [] ==> lead[|lead| - 1].Restart? || lead[|lead| - 1].Degraded?
    requires rest != [] && rest[0].Ran? && forall i :: 0 <= i < |rest| ==> InPlace(rest, i)
    requires forall i :: 0 < i < |rest| ==> rest[i].Completed? || rest[i].Restarting? || rest[i].Waiting?
    ensures forall i :: 0 <= i < |lead + rest| ==> InPlace(lead + rest, i)
  {
    forall i | 0 <= i < |lead + rest|
      ensures InPlace(lead + rest, i)
    {
      if i < |lead| { assert InPlace(lead, i); } else { assert InPlace(rest, i - |lead|); }
    }
  }

  predicate InPlace(log: seq<Event>, i: nat)
    requires i < |log|
  {
    match log[i]
    case Degraded => i > 0 && log[i - 1].Restart?
    case Completed => i > 0 && log[i - 1].Ran?
    case Restarting => i > 0 && log[i - 1].Ran?
    case Waiting(_) => i > 0 && log[i - 1].Completed?
    case Ran(_, _, _) => i == 0 || log[i - 1].Restart? || log[i - 1].Degraded?
    case _ => i == 0
  }

  // ----- taking the stream of the REPL -----

  /** The framing wrapper gets into the slot. */
  predicate Installs(t: Take) {
    t.muxImports && t.installs
  }

  /** There is a stream in the slot, and it can tell that the host has let go. */
  predicate Shareable(slot: Option<Stream>) {
    slot.Some? && slot.value.Port? && slot.value.hasLiveness
  }

  predicate Takes(t: Take, slot: Option<Stream>) {
    Installs(t) && Shareable(slot) && t.attach.Attached?
  }

  /** The wrapper is registered but its attaching is interrupted. */
  predicate Interrupts(t: Take, slot: Option<Stream>) {
    Installs(t) && Shareable(slot) && t.attach.Interrupted?
  }

  predicate Opens(channel: Channel, slot: Option<Stream>) {
    match channel
    case Tcp => true
    case Path(opens) => opens
    case Repl(take) => Takes(take, slot)
  }

  /** The run gets as far as asking for its channel. */
  predicate AsksForChannel(s: Script) {
    s.hasSettrace && s.loaded.Some? && s.argsParse
  }

  predicate Announces(s: Script, slot: Option<Stream>) {
    AsksForChannel(s) && Opens(s.channel, slot) && s.listens && s.capsRead
  }

  function Baseline(s: Script, modules: set<string>): set<string> {
    match s.loaded
    case None => modules
    case Some(loaded) => modules + loaded + {"debugpy"}
  }

  /** What a run of the script shows and leaves behind, from the slot and the modules it starts with. */
  function RunOf(s: Script, slot: Option<Stream>, modules: set<string>): Outcome {
    if !s.hasSettrace then Outcome([], modules, false, false)
    else
      var baseline := Baseline(s, modules);
      if !Announces(s, slot) then Outcome([], baseline, false, true)
      else
        var ready := [Ready(s.channel.Repl?, if s.channel.Repl? then Some(Framing) else slot)];
        match s.client
        case ClientError => Outcome(ready, baseline, false, true)
        case Gone(disconnects) => Outcome(ready, baseline, false, !disconnects)
        case Configured =>
          var o := Loop(s.passes, s.loop, baseline, baseline, 1);
          o.(log := ready + o.log)
  }

  /** The endpoint is announced at most once, before anything else; `repl_dap` says whether this run holds the slot. */
  lemma AnnouncedOnce(s: Script, slot: Option<Stream>, modules: set<string>)
    requires slot != Some(Framing)
    ensures var log := RunOf(s, slot, modules).log;
            && (forall i :: 1 <= i < |log| ==> WellTraced(log[i]))
            && (log != [] ==> log[0].Ready? && (log[0].replDap <==> log[0].slot == Some(Framing)))
            && (log != [] <==> Announces(s, slot))
  {
    LoopWellTraced(s.passes, s.loop, Baseline(s, modules), Baseline(s, modules), 1);
  }

  /** The endpoint is announced exactly when every step up to it works; a stream that is shared has to be one that can tell. */
  lemma AnnouncedExactly(s: Script, slot: Option<Stream>, modules: set<string>)
    ensures RunOf(s, slot, modules).log != []
       <==> && s.hasSettrace && s.loaded.Some? && s.argsParse && s.listens && s.capsRead
            && (s.channel.Repl? ==> exists id :: slot == Some(Port(id, true)))
            && s.channel in [Tcp, Path(true)] + (if s.channel.Repl? then [Repl(Take(true, true, Attached, s.channel.take.restores))] else [])
    ensures s.hasSettrace && s.loaded.Some? && !s.client.Configured? ==>
              RunOf(s, slot, modules).modules == modules + s.loaded.value + {"debugpy"}
  {
    hide Loop;
    if s.channel.Repl? && Shareable(slot) {
      assert slot == Some(Port(slot.value.id, true));
    }
  }

  /**
   An exception leaves the run exactly when something fails on the way, the client's end included; without
   `settrace` there is no debugger to fail.
   */
  lemma RunRaises(s: Script, slot: Option<Stream>, modules: set<string>) returns (last: nat)
    ensures Reaches(s.passes, s.loop, 1, last) && !Reaches(s.passes, s.loop, 1, last + 1)
    ensures var o := RunOf(s, slot, modules);
            !o.raised
            <==> !s.hasSettrace
                 || (o.log != [] && (s.client == Gone(true)
                                     || (s.client == Configured && last < |s.passes| && !Escapes(s.passes[last], s.loop, last + 1))))
  {
    var baseline := Baseline(s, modules);
    last := LoopStops(s.passes, s.loop, baseline, baseline, 1);
    hide Loop, Reaches, Escapes, TurnsUpTo;
  }

  /** Tracing is off when a run is over, except exactly when a pass it gets to fails to arm and leaves its hook. */
  lemma TracingEndsOff(s: Script, slot: Option<Stream>, modules: set<string>)
    ensures RunOf(s, slot, modules).tracing
       <==> s.hasSettrace && Announces(s, slot) && s.client.Configured? && exists k: nat :: LeavesHook(s.passes, s.loop, 1, k)
  {
    TracingLeftOn(s.passes, s.loop, Baseline(s, modules), Baseline(s, modules), 1);
    hide Loop, LeavesHook;
  }

  /** The turns of a whole run. */
  lemma RunTakesTurns(s: Script, slot: Option<Stream>, modules: set<string>)
    ensures TakeTurns(Turns(RunOf(s, slot, modules).log), Baseline(s, modules), 1)
  {
    hide TakeTurns, Loop;
    var baseline := Baseline(s, modules);
    NobodysTurn(baseline);
    LoopTakesTurns(s.passes, s.loop, baseline, baseline);
    NoTurns();
    var ready := Ready(s.channel.Repl?, if s.channel.Repl? then Some(Framing) else slot);
    var log := Loop(s.passes, s.loop, baseline, baseline, 1).log;
    TurnsAppend([ready], log);
    assert Turns([ready]) == [] && [] + Turns(log) == Turns(log);
  }

  /**
   When the slot holds again what it held before the run, for a session that ends with `modules`
   loaded: a stream that was taken has to be given back, and that needs the closing of the DAP
   channel not to fail.
   */
  predicate GivesBack(s: Script, slot: Option<Stream>, modules: set<string>) {
    if !AsksForChannel(s) || !s.channel.Repl? then true
    else
      var t := s.channel.take;
      if Takes(t, slot) || Interrupts(t, slot) then
        && ("debugpy" in modules ==> s.disconnects) && s.detaches && s.restores
        && (t.attach.Interrupted? ==> t.attach.recorded)
      else Installs(t) ==> t.restores
  }

  /** When closing, detaching and restoring work, and an interrupt does not come before the port is recorded, the slot is given back. */
  lemma SlotGivenBack(s: Script, slot: Option<Stream>, modules: set<string>)
    requires s.disconnects && s.detaches && s.restores
    requires s.channel.Repl? ==> s.channel.take.restores && s.channel.take.attach != Interrupted(false)
    ensures GivesBack(s, slot, modules)
  {
  }

  /** It needs each of these calls: with any one failing there is a run that keeps the slot. */
  lemma EachCallNeeded(s: Script, id: nat, modules: set<string>)
    requires AsksForChannel(s) && s.channel.Repl? && "debugpy" in modules
    requires s.channel.take.muxImports && s.channel.take.installs && s.channel.take.attach in [Attached, Interrupted(true), Interrupted(false)]
    ensures GivesBack(s, Some(Port(id, true)), modules)
       <==> s.disconnects && s.detaches && s.restores && s.channel.take.attach != Interrupted(false)
    ensures GivesBack(s, None, modules) == GivesBack(s, Some(Port(id, false)), modules) == s.channel.take.restores
  {
  }

  /** A run over the REPL's stream in which everything works but the closing of the DAP session. */
  function FailingClose(t: Take): Script {
    Script(true, Some({}), true, false, Repl(t), true, true, Gone(true), [], false, true, true)
  }

  /** It happens: such a run keeps the slot, although detaching and restoring would have worked. */
  lemma FailingCloseKeepsSlot(id: nat, modules: set<string>)
    ensures var s, slot := FailingClose(Take(true, true, Attached, true)), Some(Port(id, true));
            Announces(s, slot) && !GivesBack(s, slot, RunOf(s, slot, modules).modules)
  {
    var s := FailingClose(Take(true, true, Attached, true));
    assert "debugpy" in Baseline(s, modules);
  }

  // ----- the script -----

  class Machine {
    /** What the REPL's dupterm slot holds. */
    var slot: Option<Stream>
    /** The stream each registered multiplexer is attached to. */
    var replMux: seq<Option<Stream>>
    var modules: set<string>
    var tracing: bool
    var log: seq<Event>

    constructor (slot: Option<Stream>, modules: set<string>)
      ensures this.slot == slot && this.modules == modules
      ensures replMux == [] && !tracing && log == []
    {
      this.slot, this.modules := slot, modules;
      replMux, tracing, log := [], false, [];
    }

    method ReplDapStream(t: Take) returns (taken: bool)
      requires replMux == [] && slot != Some(Framing)
      modifies `slot, `replMux
      ensures taken <==> Takes(t, old(slot))
      ensures taken ==> slot == Some(Framing) && replMux == [old(slot)]
      ensures Interrupts(t, old(slot)) ==>
                slot == Some(Framing) && replMux == [if t.attach.recorded then old(slot) else None]
      ensures !taken && !Interrupts(t, old(slot)) ==>
                replMux == [] && (slot == old(slot) <==> (Installs(t) ==> t.restores))
    {
      if !t.muxImports || !t.installs { return false; }
      var previous := slot;
      slot := Some(Framing);
      if previous.None? {
        if t.restores { slot := None; }
        return false;
      }
      if !previous.value.hasLiveness {
        if t.restores { slot := previous; }
        return false;
      }
      replMux := replMux + [None];
      match t.attach
      case Attached =>
        replMux := replMux[|replMux| - 1 := previous];
        return true;
      case Refused =>
        replMux := replMux[..|replMux| - 1];
        if t.restores { slot := previous; }
        return false;
      case Interrupted(recorded) =>
        if recorded { replMux := replMux[|replMux| - 1 := previous]; }
        return false;
    }

    method ReleaseReplStream(detaches: bool, restores: bool)
      modifies `slot, `replMux
      ensures replMux == []
      ensures slot == if old(replMux) != [] && detaches && restores then old(replMux)[0] else old(slot)
    {
      while replMux != []
        invariant |replMux| <= |old(replMux)| && replMux == old(replMux)[..|replMux|]
        invariant slot == if |replMux| < |old(replMux)| && detaches && restores then old(replMux)[|replMux|] else old(slot)
        decreases |replMux|
      {
        var port := replMux[|replMux| - 1];
        replMux := replMux[..|replMux| - 1];
        if detaches && restores { slot := port; }
      }
    }

    method EvictTargetModules(baseline: set<string>) returns (evicted: set<string>)
      modifies `modules
      ensures modules == old(modules) * baseline
      ensures evicted == old(modules) - baseline
    {
      evicted := {};
      var names := modules;
      while names != {}
        invariant names <= old(modules)
        invariant evicted == old(modules) - names - baseline
        invariant modules == old(modules) - evicted
        decreases names
      {
        var name :| name in names;
        names := names - {name};
        if name !in baseline {
          modules := modules - {name};
          evicted := evicted + {name};
        }
      }
    }

    method TracingSurvivedUnwind(probeFires: bool) returns (survived: bool)
      modifies `tracing
      ensures !tracing && survived == probeFires
    {
      tracing := true;
      survived := probeFires;
      tracing := false;
    }

    /** An iteration up to the arming of the tracer: none of it for the first one. */
    method LeadIn(p: Pass, baseline: set<string>, iteration: nat) returns (goes: bool)
      requires !tracing
      modifies `modules, `tracing, `log
      ensures log == old(log) + Lead(p, baseline, old(modules), iteration).0
      ensures goes == Lead(p, baseline, old(modules), iteration).1
      ensures modules == Kept(baseline, old(modules), iteration) && !tracing
    {
      goes := true;
      if iteration != 1 {
        var evicted := EvictTargetModules(baseline);
        log := log + [Restart(iteration, evicted)];
        if !p.reports { return false; }
        var survived := TracingSurvivedUnwind(p.probeFires);
        if !survived {
          Associative(old(log), [Restart(iteration, evicted)], [Degraded]);
          log := log + [Degraded];
          if !p.warns { return false; }
        }
      }
    }

    /** The traced region and what follows it, up to the next iteration. */
    method RunTarget(p: Pass, loop: bool) returns (again: bool, raised: bool)
      requires !tracing && p.arming.Armed?
      modifies `modules, `tracing, `log
      ensures log == old(log) + [Ran(true, old(modules), p.modules)] + Tail(p, loop).0
      ensures again == Tail(p, loop).1 && raised == TailRaises(p, loop)
      ensures modules == p.modules && !tracing
    {
      tracing := true;
      var restarting := false;
      log := log + [Ran(tracing, modules, p.modules)];
      modules := p.modules;
      AppendNone(log);
      match p.end {
        case ImportFailed => tracing := false; return false, false;
        case NoMethod => tracing := false; return false, false;
        case Raised => tracing := false; return false, true;
        case RestartRequested => log := log + [Restarting]; restarting := true;
        case Returned =>
      }
      tracing := false;
      if restarting { return loop, false; }
      Associative(log, [Completed], if loop then [Waiting(false)] else []);
      log := log + [Completed];
      if !loop { return false, false; }
      log := log + [Waiting(tracing)];
      return p.wait.Again?, p.wait.WaitError?;
    }

    /** What the events so far and the rest of the loop come to. */
    ghost function Ahead(passes: seq<Pass>, loop: bool, baseline: set<string>, n: nat): Outcome
      requires n > 0
      reads this
    {
      var o := Loop(passes, loop, baseline, modules, n);
      o.(log := log + o.log)
    }

    method RunLoop(passes: seq<Pass>, loop: bool) returns (raised: bool)
      requires !tracing
      modifies `modules, `tracing, `log
      ensures Outcome(log, modules, tracing, raised) == old(Ahead(passes, loop, modules, 1))
    {
      hide Lead, Tail, Kept, TailRaises;
      var baseline := modules;
      var iteration := 0;
      assert passes[0..] == passes;
      while true
        invariant 0 <= iteration <= |passes| && !tracing
        invariant Ahead(passes[iteration..], loop, baseline, iteration + 1) == old(Ahead(passes, loop, modules, 1))
        decreases |passes| - iteration
      {
        AppendNone(log);
        if iteration == |passes| { return true; }
        var p := passes[iteration];
        assert passes[iteration..][1..] == passes[iteration + 1..];
        ghost var before := log;
        iteration := iteration + 1;
        ghost var (lead, tail) := (Lead(p, baseline, modules, iteration).0, Tail(p, loop).0);
        var goes := LeadIn(p, baseline, iteration);
        if !goes { return true; }
        if p.arming.NotArmed? {
          tracing := p.arming.hookLeft;
          return true;
        }
        ghost var run := Ran(true, modules, p.modules);
        var again, failed := RunTarget(p, loop);
        FiveParts(before, lead, [run], tail, Loop(passes[iteration..], loop, baseline, modules, iteration + 1).log);
        if !again { return failed; }
      }
    }

    method Run(s: Script) returns (raised: bool)
      requires !tracing && replMux == [] && slot != Some(Framing)
      modifies this
      ensures raised == RunOf(s, old(slot), old(modules)).raised
      ensures log == old(log) + RunOf(s, old(slot), old(modules)).log
      ensures modules == RunOf(s, old(slot), old(modules)).modules
      ensures tracing == RunOf(s, old(slot), old(modules)).tracing
      ensures TookStream(s, old(slot))
    {
      hide Loop, TakeTurns;
      AppendNone(log);
      if !s.hasSettrace { return false; }
      if s.loaded.None? { return true; }
      modules := modules + s.loaded.value + {"debugpy"};
      if !s.argsParse { return true; }
      match s.channel {
        case Tcp =>
        case Path(opens) => if !opens { return true; }
        case Repl(take) =>
          var taken := ReplDapStream(take);
          if !taken { return true; }
      }
      if !s.listens { return true; }
      if !s.capsRead { return true; }
      log := log + [Ready(replMux != [], slot)];
      match s.client
      case ClientError => return true;
      case Gone(disconnects) => return !disconnects;
      case Configured =>
        Associative(old(log), [Ready(replMux != [], slot)], Loop(s.passes, s.loop, modules, modules, 1).log);
        raised := RunLoop(s.passes, s.loop);
    }

    /** The slot and the registered multiplexers after a run that started with `before` in the slot. */
    ghost predicate TookStream(s: Script, before: Option<Stream>)
      reads this
    {
      if !AsksForChannel(s) || !s.channel.Repl? then slot == before && replMux == []
      else
        var t := s.channel.take;
        if Takes(t, before) then slot == Some(Framing) && replMux == [before]
        else if Interrupts(t, before) then
          slot == Some(Framing) && replMux == [if t.attach.recorded then before else None]
        else replMux == [] && (slot == before <==> (Installs(t) ==> t.restores))
    }

    /** Closes the client's connection; nothing to close when the debugger was never loaded. */
    method EndSession(disconnects: bool) returns (raised: bool)
      ensures raised <==> "debugpy" in modules && !disconnects
    {
      raised := "debugpy" in modules && !disconnects;
    }

    /**
     The whole script. Whatever of it fails, the slot holds what it held before exactly when
     `GivesBack` says so, and unless closing the session fails no multiplexer is left registered.
     */
    method RunScript(s: Script)
      requires !tracing && replMux == [] && slot != Some(Framing)
      modifies this
      ensures log == old(log) + RunOf(s, old(slot), old(modules)).log
      ensures modules == RunOf(s, old(slot), old(modules)).modules
      ensures tracing == RunOf(s, old(slot), old(modules)).tracing
      ensures slot == old(slot) <==> GivesBack(s, old(slot), modules)
      ensures ("debugpy" in modules ==> s.disconnects) ==> replMux == []
    {
      hide RunOf;
      var raised := Run(s);
      raised := EndSession(s.disconnects);
      if !raised { ReleaseReplStream(s.detaches, s.restores); }
    }
  }

  lemma FiveParts<T>(a: seq<T>, b: seq<T>, c: seq<T>, d: seq<T>, e: seq<T>)
    ensures a + (b + c + d) == a + b + c + d
    ensures a + (b + c + d + e) == a + b + c + d + e
  {
    Associative(a, b, c);
    Associative(a, b + c, d);
    Associative(a, b + c + d, e);
  }
}
