/**
 The runner around the `mpremote debug` child: it waits for the handshake in the child's output and
 settles exactly once, on the handshake, the end of the stream, an error or the timeout.
 */
module DebugCommand {
  import opened Wrappers
  import opened Text
  import opened Framing
  import opened Handshake

  const MAX_OUTPUT_LINES := 200
  const MAX_LINE_CHARS := 4000

  // ----- captured output -----

  function Clip(text: string): string {
    if |text| > MAX_LINE_CHARS then text[..MAX_LINE_CHARS] + "...[truncated]" else text
  }

  function Clips(texts: seq<string>): seq<string> {
    seq(|texts|, i requires 0 <= i < |texts| => Clip(texts[i]))
  }

  /** The last `n` elements, all of them when there are fewer. */
  function LastOf<T>(s: seq<T>, n: nat): seq<T> {
    if |s| <= n then s else s[|s| - n..]
  }

  lemma LastOfAppend<T>(s: seq<T>, x: T, n: nat)
    requires n > 0
    ensures var l := LastOf(s, n) + [x]; LastOf(s + [x], n) == if |l| > n then l[1..] else l
  {
  }

  lemma ClipsAppend(texts: seq<string>, text: string)
    ensures Clips(texts + [text]) == Clips(texts) + [Clip(text)]
  {
  }

  // ----- events and states -----

  /** What reaches the runner: decoded chunks, the end of the stream with the decoder's tail, failures. */
  datatype Event = Stdout(text: string) | Stderr(text: string) | Close(tail: string) | Error | Timeout

  datatype Listener = OnStdout | OnStderr | OnClose | OnError

  datatype Cause = TimedOut | EndOfStream | FailedToStart

  datatype Outcome<H, E> =
    | Pending
    | Resolved(handshake: H)
    | Rejected(cause: Cause, malformed: Option<E>, captured: seq<string>)

  /** `history` is everything the output was offered, `kills` how often the child was killed. */
  datatype Run<H, E> = Run(scan: State<H, E>, history: seq<string>, outcome: Outcome<H, E>,
                           listeners: set<Listener>, timer: bool, kills: nat)

  const ALL_LISTENERS := {OnStdout, OnStderr, OnClose, OnError}

  function Begin<H, E>(): Run<H, E> {
    Run(Start(), [], Pending, ALL_LISTENERS, true, 0)
  }

  function Captured<H, E>(r: Run<H, E>): seq<string> {
    LastOf(Clips(r.history), MAX_OUTPUT_LINES)
  }

  /** The scanner moves to `s`; the lines it reports on the way go to the output. */
  function Scanned<H, E>(r: Run<H, E>, s: State<H, E>): Run<H, E>
    requires |r.scan.findings.reported| <= |s.findings.reported|
  {
    r.(scan := s, history := r.history + s.findings.reported[|r.scan.findings.reported|..])
  }

  function Settle<H, E>(r: Run<H, E>, outcome: Outcome<H, E>): Run<H, E> {
    if r.outcome.Pending? then
      r.(outcome := outcome, listeners := {}, timer := false,
         kills := if outcome.Rejected? then r.kills + 1 else r.kills)
    else r
  }

  function Reject<H, E>(r: Run<H, E>, cause: Cause): Run<H, E> {
    Settle(r, Rejected(cause, if cause.FailedToStart? then None else r.scan.findings.malformed, Captured(r)))
  }

  ghost function HandleStdout<H, E>(parse: Parser<H, E>, r: Run<H, E>, text: string): Run<H, E> {
    ReportedGrows(parse, r.scan, text);
    var t := Scanned(r, Pushed(parse, r.scan, text));
    if t.scan.findings.found.Some? then Settle(t, Resolved(t.scan.findings.found.value)) else t
  }

  ghost function HandleClose<H, E>(parse: Parser<H, E>, r: Run<H, E>, tail: string): Run<H, E> {
    ReportedGrows(parse, r.scan, tail);
    var t := if tail == "" then r else Scanned(r, Pushed(parse, r.scan, tail));
    var u := Scanned(t, Flushed(parse, t.scan));
    if u.scan.findings.found.Some? then Settle(u, Resolved(u.scan.findings.found.value)) else Reject(u, EndOfStream)
  }

  /** An event reaches its handler only while that is attached, and the timer fires at most once. */
  ghost function Step<H, E>(parse: Parser<H, E>, r: Run<H, E>, e: Event): Run<H, E> {
    match e
    case Stdout(text) => if OnStdout in r.listeners then HandleStdout(parse, r, text) else r
    case Stderr(text) => if OnStderr in r.listeners then r.(history := r.history + [text]) else r
    case Close(tail) => if OnClose in r.listeners then HandleClose(parse, r, tail) else r
    case Error => if OnError in r.listeners then Reject(r, FailedToStart) else r
    case Timeout => if r.timer then Reject(r.(timer := false), TimedOut) else r
  }

  ghost function Steps<H, E>(parse: Parser<H, E>, r: Run<H, E>, events: seq<Event>): Run<H, E>
    decreases |events|
  {
    if events == [] then r else Steps(parse, Step(parse, r, events[0]), events[1..])
  }

  lemma {:induction false} ConsumeAllGrows<H, E>(parse: Parser<H, E>, f: Findings<H, E>, lines: seq<string>)
    ensures f.reported <= ConsumeAll(parse, f, lines).reported
    decreases |lines|
  {
    if lines != [] {
      ConsumeAllGrows(parse, Consume(parse, f, lines[0]), lines[1..]);
    }
  }

  lemma ReportedGrows<H, E>(parse: Parser<H, E>, s: State<H, E>, chunk: string)
    ensures s.findings.reported <= Pushed(parse, s, chunk).findings.reported
  {
    ConsumeAllGrows(parse, s.findings, StripCrs(Drain(ScanLine, s.buf + chunk).bodies));
  }

  // ----- settling -----

  /** What holds of a run between events. */
  predicate Consistent<H, E>(r: Run<H, E>) {
    && r.kills == (if r.outcome.Rejected? then 1 else 0)
    && (r.outcome.Pending? ==> r.listeners == ALL_LISTENERS && r.timer)
    && (!r.outcome.Pending? ==> r.listeners == {} && !r.timer)
    && (r.outcome.Rejected? ==> r.outcome.captured == Captured(r))
  }

  lemma StepConsistent<H, E>(parse: Parser<H, E>, r: Run<H, E>, e: Event)
    requires Consistent(r)
    ensures Consistent(Step(parse, r, e))
    ensures !r.outcome.Pending? ==> Step(parse, r, e) == r
  {
  }

  /**
   Over any events: a run still waiting has all its listeners and its timer, a settled one has none;
   the child was killed once if the run rejected and not otherwise.
   */
  lemma {:induction false} RunConsistent<H, E>(parse: Parser<H, E>, r: Run<H, E>, events: seq<Event>)
    requires Consistent(r)
    ensures Consistent(Steps(parse, r, events))
    decreases |events|
  {
    if events != [] {
      StepConsistent(parse, r, events[0]);
      RunConsistent(parse, Step(parse, r, events[0]), events[1..]);
    }
  }

  /** Nothing that happens after a run has settled changes anything about it. */
  lemma {:induction false} SettledForGood<H, E>(parse: Parser<H, E>, r: Run<H, E>, events: seq<Event>)
    requires Consistent(r) && !r.outcome.Pending?
    ensures Steps(parse, r, events) == r
    decreases |events|
  {
    if events != [] {
      StepConsistent(parse, r, events[0]);
      SettledForGood(parse, r, events[1..]);
    }
  }

  // ----- what a run settles on -----

  predicate Terminal(e: Event) {
    e.Close? || e.Error? || e.Timeout?
  }

  /** The stdout text before the first close, error or timeout. */
  function TextBefore(events: seq<Event>): string {
    if events == [] || Terminal(events[0]) then ""
    else (if events[0].Stdout? then events[0].text else "") + TextBefore(events[1..])
  }

  /** The first close, error or timeout. */
  function Ending(events: seq<Event>): Option<Event> {
    if events == [] then None
    else if Terminal(events[0]) then Some(events[0])
    else Ending(events[1..])
  }

  function Tail(ending: Option<Event>): string {
    if ending.Some? && ending.value.Close? then ending.value.tail else ""
  }

  /** The complete lines of a text. */
  ghost function LinesOf(text: string): seq<string> {
    StripCrs(Drain(ScanLine, text).bodies)
  }

  /**
   The outcome when `text` came in before `ending`: the handshake of the first ready line that
   parses, where an unterminated last line counts only if the stream closed; without one, the
   rejection the ending stands for. Neither the chunks nor anything on stderr has a say in it.
   */
  ghost function Expected<H, E>(parse: Parser<H, E>, text: string, ending: Option<Event>, captured: seq<string>):
    Outcome<H, E>
  {
    var lines := LinesOf(text);
    var all := AllLines(text + Tail(ending));
    if AcceptedIn(parse, lines).Some? then Resolved(AcceptedIn(parse, lines).value)
    else if ending.None? then Pending
    else if ending.value.Close? then
      if AcceptedIn(parse, all).Some? then Resolved(AcceptedIn(parse, all).value)
      else Rejected(EndOfStream, MalformedIn(parse, all), captured)
    else if ending.value.Error? then Rejected(FailedToStart, None, captured)
    else Rejected(TimedOut, MalformedIn(parse, lines), captured)
  }

  lemma OnePassFindings<H, E>(parse: Parser<H, E>, text: string)
    ensures OnePass(parse, text).findings == FindingsIn(parse, LinesOf(text))
  {
    FindingsOf(parse, LinesOf(text));
  }

  lemma {:induction false} AcceptedStays<H, E>(parse: Parser<H, E>, a: seq<string>, b: seq<string>)
    requires AcceptedIn(parse, a).Some?
    ensures AcceptedIn(parse, a + b) == AcceptedIn(parse, a)
  {
    if !Accepts(parse, a[0]) {
      assert (a + b)[1..] == a[1..] + b;
      ReportedCons(parse, a);
      ReportedCons(parse, a + b);
      AcceptedStays(parse, a[1..], b);
    }
  }

  lemma AcceptedStaysInText<H, E>(parse: Parser<H, E>, a: string, b: string)
    requires AcceptedIn(parse, LinesOf(a)).Some?
    ensures AcceptedIn(parse, LinesOf(a + b)) == AcceptedIn(parse, LinesOf(a))
  {
    ScanLineIncremental();
    hide ScanLine, AcceptedIn;
    DrainSplit(ScanLine, a, b);
    var later := Drain(ScanLine, Drain(ScanLine, a).left + b).bodies;
    assert LinesOf(a + b) == LinesOf(a) + StripCrs(later);
    AcceptedStays(parse, LinesOf(a), StripCrs(later));
  }

  /**
   No terminated line up to the first accepted one can be cut to a ready line, or is one that can be
   cut; what comes behind it is of no account.
   */
  ghost predicate UncutUntilAccepted<H, E>(parse: Parser<H, E>, text: string) {
    UncutUpTo(text, FirstAccepted(parse, LinesOf(text)))
  }

  lemma {:induction false} NoneAcceptedIn<H, E>(parse: Parser<H, E>, a: seq<string>, b: seq<string>)
    requires AcceptedIn(parse, a).None?
    ensures FirstAccepted(parse, a + b) >= |a|
  {
    if a != [] && !Accepts(parse, a[0]) {
      assert (a + b)[1..] == a[1..] + b;
      ReportedCons(parse, a);
      NoneAcceptedIn(parse, a[1..], b);
    }
  }

  lemma LinesSplit(a: string, b: string)
    ensures LinesOf(a + b) == LinesOf(a) + StripCrs(Drain(ScanLine, Drain(ScanLine, a).left + b).bodies)
    ensures |LinesOf(a)| == |Drain(ScanLine, a).bodies|
  {
    BodiesSplit(a, b);
    hide Drain, ScanLine;
  }

  /** As long as nothing was accepted, the next chunk ends no line that matters. */
  lemma NextUncut<H, E>(parse: Parser<H, E>, seen: string, chunk: string, later: string)
    requires AcceptedIn(parse, LinesOf(seen)).None? && UncutUntilAccepted(parse, seen + (chunk + later))
    ensures UncutNext(seen, chunk)
  {
    LinesSplit(seen, chunk + later);
    NoneAcceptedIn(parse, LinesOf(seen), StripCrs(Drain(ScanLine, Drain(ScanLine, seen).left + (chunk + later)).bodies));
    var k := FirstAccepted(parse, LinesOf(seen + (chunk + later)));
    hide LinesOf, Drain, AcceptedIn, UncutUpTo, UncutNext, ScanLine;
    NextIsUncut(seen, chunk, later, k);
  }

  lemma StdoutStep<H, E>(parse: Parser<H, E>, seen: string, r: Run<H, E>, text: string)
    requires Consistent(r) && r.outcome.Pending? && ReadsLike(parse, r.scan, seen)
    requires UncutNext(seen, text)
    ensures var t := Step(parse, r, Stdout(text));
            Consistent(t) && ReadsLike(parse, t.scan, seen + text)
            && t.outcome == match AcceptedIn(parse, LinesOf(seen + text)) { case Some(h) => Resolved(h) case None => Pending }
  {
    PushLike(parse, r.scan, seen, text);
    OnePassFindings(parse, seen + text);
    StepConsistent(parse, r, Stdout(text));
    hide Pushed, OnePass, UncutNext, LinesOf, Consistent, Captured;
  }

  lemma CloseStep<H, E>(parse: Parser<H, E>, seen: string, r: Run<H, E>, tail: string)
    requires Consistent(r) && r.outcome.Pending? && ReadsLike(parse, r.scan, seen)
    requires AcceptedIn(parse, LinesOf(seen)).None? && UncutNext(seen, tail)
    ensures var t := Step(parse, r, Close(tail));
            Consistent(t) && t.outcome == Expected(parse, seen, Some(Close(tail)), Captured(t))
  {
    var scan := if tail == "" then r.scan else Pushed(parse, r.scan, tail);
    if tail == "" {
      assert seen + tail == seen;
    } else {
      PushLike(parse, r.scan, seen, tail);
    }
    FlushLike(parse, scan, seen + tail);
    hide Pushed, ReadsLike, UncutNext, LinesOf, AllLines, AcceptedIn, MalformedIn, Reported;
    StepConsistent(parse, r, Close(tail));
  }

  lemma {:induction false} OutcomeFrom<H, E>(parse: Parser<H, E>, seen: string, r: Run<H, E>, events: seq<Event>)
    requires Consistent(r) && r.outcome.Pending? && ReadsLike(parse, r.scan, seen)
    requires AcceptedIn(parse, LinesOf(seen)).None?
    requires UncutUntilAccepted(parse, seen + (TextBefore(events) + Tail(Ending(events))))
    ensures var t := Steps(parse, r, events);
            t.outcome == Expected(parse, seen + TextBefore(events), Ending(events), Captured(t))
    decreases |events|
  {
    hide Expected, Step, UncutUntilAccepted, UncutNext, LinesOf, ReadsLike, AcceptedIn, Captured;
    if events == [] {
      assert seen + "" == seen;
      NothingHappened(parse, seen, r);
    } else {
      var e, later := events[0], events[1..];
      assert Terminal(e) ==> TextBefore(events) == "" && seen + "" == seen;
      if e.Stdout? {
        var rest := TextBefore(later) + Tail(Ending(later));
        Associative(seen, e.text, TextBefore(later));
        Associative(e.text, TextBefore(later), Tail(Ending(later)));
        Associative(seen, e.text, rest);
        NextUncut(parse, seen, e.text, rest);
        StdoutStep(parse, seen, r, e.text);
        var t := Step(parse, r, e);
        if t.outcome.Pending? {
          OutcomeFrom(parse, seen + e.text, t, later);
        } else {
          SettledForGood(parse, t, later);
          AcceptedStaysInText(parse, seen + e.text, TextBefore(later));
          ExpectedResolved(parse, seen + TextBefore(events), Ending(events), Captured(t));
        }
      } else if e.Stderr? {
        assert TextBefore(events) == TextBefore(later);
        StderrStep(parse, r, e.text);
        OutcomeFrom(parse, seen, Step(parse, r, e), later);
      } else {
        assert "" + Tail(Some(e)) == Tail(Some(e)) && Tail(Some(e)) + "" == Tail(Some(e));
        NextUncut(parse, seen, Tail(Some(e)), "");
        EndingStep(parse, seen, r, e);
        SettledForGood(parse, Step(parse, r, e), later);
      }
    }
  }

  lemma NothingHappened<H, E>(parse: Parser<H, E>, seen: string, r: Run<H, E>)
    requires r.outcome.Pending? && AcceptedIn(parse, LinesOf(seen)).None?
    ensures r.outcome == Expected(parse, seen, None, Captured(r))
  {
  }

  lemma ExpectedResolved<H, E>(parse: Parser<H, E>, text: string, ending: Option<Event>, captured: seq<string>)
    requires AcceptedIn(parse, LinesOf(text)).Some?
    ensures Expected(parse, text, ending, captured) == Resolved(AcceptedIn(parse, LinesOf(text)).value)
  {
  }

  lemma StderrStep<H, E>(parse: Parser<H, E>, r: Run<H, E>, text: string)
    requires Consistent(r) && r.outcome.Pending?
    ensures var t := Step(parse, r, Stderr(text)); Consistent(t) && t.outcome.Pending? && t.scan == r.scan
  {
  }

  lemma EndingStep<H, E>(parse: Parser<H, E>, seen: string, r: Run<H, E>, e: Event)
    requires Consistent(r) && r.outcome.Pending? && ReadsLike(parse, r.scan, seen)
    requires AcceptedIn(parse, LinesOf(seen)).None? && Terminal(e) && UncutNext(seen, Tail(Some(e)))
    ensures var t := Step(parse, r, e);
            Consistent(t) && !t.outcome.Pending? && t.outcome == Expected(parse, seen, Some(e), Captured(t))
  {
    StepConsistent(parse, r, e);
    OnePassFindings(parse, seen);
    if e.Close? {
      CloseStep(parse, seen, r, e.tail);
    }
  }

  lemma BeginsLike<H, E>(parse: Parser<H, E>)
    ensures ReadsLike(parse, Begin<H, E>().scan, "") && Consistent(Begin<H, E>()) && AcceptedIn(parse, LinesOf("")).None?
  {
    assert Drain(ScanLine, "") == Drained([], "", false);
  }

  /**
   What the promise settles on, over any events: the one-pass reading of the stdout text, cut at the
   first close, error or timeout, says it all. The text may end in any amount of output without a
   newline, and lines over the cap do not matter, unless the prefix is in one of them where it can be cut
   to or cut away, before any accepted line.
   */
  lemma OutcomeOfRun<H, E>(parse: Parser<H, E>, events: seq<Event>)
    requires UncutUntilAccepted(parse, TextBefore(events) + Tail(Ending(events)))
    ensures var t := Steps(parse, Begin(), events);
            t.outcome == Expected(parse, TextBefore(events), Ending(events), Captured(t))
  {
    var text := TextBefore(events) + Tail(Ending(events));
    assert "" + TextBefore(events) == TextBefore(events) && "" + text == text;
    hide UncutUntilAccepted, Expected, ReadsLike, AcceptedIn, LinesOf, Consistent, Steps, Captured;
    BeginsLike(parse);
    OutcomeFrom(parse, "", Begin(), events);
  }

  /** What a single line settles on. */
  function Verdict<H, E>(parse: Parser<H, E>, line: string): Outcome<H, E> {
    if Accepts(parse, line) then Resolved(parse(line).value) else Pending
  }

  /**
   Why lines with the prefix where they can be cut are excluded: a line over the cap settles on itself
   when it comes in one chunk, and on what is left of it without its first `m` characters when the
   chunk is cut there. A handshake is lost that way, and one that is not at the start of its line is made.
   */
  lemma LongLineOutcomes<H, E>(parse: Parser<H, E>, line: string, m: nat)
    requires 1 <= m <= |line| - MAX_BUF_CHARS && '\n' !in line && line[|line| - 1] != '\r'
    ensures var n := m + MAX_BUF_CHARS;
            && Steps(parse, Begin(), [Stdout(line + "\n")]).outcome == Verdict(parse, line)
            && Steps(parse, Begin(), [Stdout(line[..n]), Stdout(line[n..] + "\n")]).outcome == Verdict(parse, line[m..])
  {
    var n := m + MAX_BUF_CHARS;
    FoundWhole(parse, line);
    FoundCut(parse, line, m);
    TwoChunks(parse, line[..n], line[n..] + "\n");
    OneChunk(parse, line + "\n");
    hide Accepts, Steps, PushedAll;
  }

  /** A handshake on a line over the cap resolves in one chunk, and is lost when the chunk is cut behind the cap. */
  lemma LongHandshakeLost<H, E>(parse: Parser<H, E>, line: string)
    requires |line| > MAX_BUF_CHARS && '\n' !in line && line[|line| - 1] != '\r' && Accepts(parse, line)
    ensures var n := MAX_BUF_CHARS + 1;
            && Steps(parse, Begin(), [Stdout(line + "\n")]).outcome == Resolved(parse(line).value)
            && Steps(parse, Begin(), [Stdout(line[..n]), Stdout(line[n..] + "\n")]).outcome == Pending
  {
    TailNotReady(line);
    hide IsReady, Steps;
    LongLineOutcomes(parse, line, 1);
  }

  /** What a run comes to over a single chunk, and over two of which the first holds no handshake. */
  lemma OneChunk<H, E>(parse: Parser<H, E>, a: string)
    ensures var found := PushedAll(parse, Start(), [a]).findings.found;
            Steps(parse, Begin(), [Stdout(a)]).outcome == if found.Some? then Resolved(found.value) else Pending
  {
    PushedOne(parse, Start(), a);
    hide Pushed;
    StepsOne(parse, Begin(), Stdout(a));
  }

  lemma TwoChunks<H, E>(parse: Parser<H, E>, a: string, b: string)
    requires PushedAll(parse, Start(), [a]).findings.found.None?
    ensures var found := PushedAll(parse, Start(), [a, b]).findings.found;
            Steps(parse, Begin(), [Stdout(a), Stdout(b)]).outcome == if found.Some? then Resolved(found.value) else Pending
  {
    PushedOne(parse, Start(), a);
    PushedTwo(parse, Start(), a, b);
    hide Pushed, PushedAll;
    var r := Step(parse, Begin<H, E>(), Stdout(a));
    StepsOne(parse, r, Stdout(b));
    assert [Stdout(a), Stdout(b)][1..] == [Stdout(b)];
  }

  lemma StepsOne<H, E>(parse: Parser<H, E>, r: Run<H, E>, e: Event)
    ensures Steps(parse, r, [e]) == Step(parse, r, e)
  {
    assert [e][1..] == [];
  }

  lemma FoundWhole<H, E>(parse: Parser<H, E>, line: string)
    requires line != "" && '\n' !in line && line[|line| - 1] != '\r'
    ensures PushedAll(parse, Start(), [line + "\n"]).findings.found
         == if Accepts(parse, line) then Some(parse(line).value) else None
  {
    assert StripCr(line) == line;
    OneConsumed(parse, line);
    hide StripCr, IsReady, Accepts, Drain, ScanLine, Pushed, ConsumeAll;
    assert "" + (line + ("\n" + "")) == line + "\n";
    OnePassAround(parse, "", line, "");
    EmptyDrain();
    PushStart(parse, line + "\n");
  }

  lemma EmptyDrain()
    ensures Drain(ScanLine, "") == Drained([], "", false)
  {
  }

  lemma PushStart<H, E>(parse: Parser<H, E>, chunk: string)
    ensures PushedAll(parse, Start(), [chunk]) == OnePass(parse, chunk)
  {
    assert "" + chunk == chunk;
    PushedOne(parse, Start(), chunk);
  }

  lemma FoundCut<H, E>(parse: Parser<H, E>, line: string, m: nat)
    requires 1 <= m <= |line| - MAX_BUF_CHARS && '\n' !in line && line[|line| - 1] != '\r'
    ensures var n := m + MAX_BUF_CHARS;
            && PushedAll(parse, Start(), [line[..n]]).findings.found.None?
            && PushedAll(parse, Start(), [line[..n], line[n..] + "\n"]).findings.found
               == if Accepts(parse, line[m..]) then Some(parse(line[m..]).value) else None
  {
    var n := m + MAX_BUF_CHARS;
    assert StripCr(line[m..]) == line[m..];
    OneConsumed(parse, line[m..]);
    EmptyDrain();
    NothingFound(parse);
    hide StripCr, Accepts, Drain, ScanLine, Pushed, PushedAll, ConsumeAll, OnePass;
    assert "\n" + "" == "\n" && "" + line[..n] == line[..n];
    LongLineCut(parse, "", line, "", m);
    PushBegun(parse, "", line[..n]);
  }

  lemma NothingFound<H, E>(parse: Parser<H, E>)
    ensures OnePass(parse, "").findings.found.None?
  {
  }

  lemma OneConsumed<H, E>(parse: Parser<H, E>, line: string)
    ensures ConsumeAll(parse, OnePass(parse, "").findings, [line] + StripCrs(Drain(ScanLine, "").bodies)).found
         == if Accepts(parse, line) then Some(parse(line).value) else None
  {
    assert Drain(ScanLine, "").bodies == [] && [line] + StripCrs([]) == [line] && [line][1..] == [];
  }

  lemma OneLineText(line: string)
    requires '\n' !in line && line != "" && line[|line| - 1] != '\r' && |line| <= 65536
    ensures LinesOf(line + "\n") == [line] && AllLines(line + "\n") == [line]
    ensures LinesOf(line) == [] && AllLines(line) == [line]
    ensures forall k :: UncutUpTo(line + "\n", k) && UncutUpTo(line, k)
  {
    assert StripCr(line) == line;
    assert line + ("\n" + "") == line + "\n" && line + "" == line && "" + line == line && [line] + [] == [line];
    DrainLine(line, "");
    assert Drain(ScanLine, "") == Drained([], "", false);
    NewlineFree(line);
    Unterminated("", line);
    hide Drain, ScanLine, StripCr;
    assert StripCrs([line]) == [StripCr(line)] && StripCrs([]) == [];
  }

  /** What a lone line says to each way the stream can end. */
  lemma EndingsTold<H, E>(parse: Parser<H, E>, line: string)
    requires '\n' !in line && "MPDBG-READY " <= line && line[|line| - 1] != '\r' && |line| <= 65536
    ensures match parse(line)
            case Ok(h) =>
              && Steps(parse, Begin(), [Stdout(line + "\n")]).outcome == Resolved(h)
              && Steps(parse, Begin(), [Stdout(line), Close("")]).outcome == Resolved(h)
              && Told(Steps(parse, Begin(), [Stdout(line), Timeout]).outcome, TimedOut, None)
              && Told(Steps(parse, Begin(), [Stdout(line), Error]).outcome, FailedToStart, None)
            case Err(e) =>
              && Steps(parse, Begin(), [Stdout(line + "\n")]).outcome == Pending
              && Told(Steps(parse, Begin(), [Stdout(line), Close("")]).outcome, EndOfStream, Some(e))
              && Told(Steps(parse, Begin(), [Stdout(line + "\n"), Timeout]).outcome, TimedOut, Some(e))
              && Told(Steps(parse, Begin(), [Stdout(line + "\n"), Error]).outcome, FailedToStart, None)
  {
    OneLineText(line);
    LoneLine(parse, line);
    TextOfTwo(line, Close(""));
    TextOfTwo(line, Timeout);
    TextOfTwo(line, Error);
    TextOfTwo(line + "\n", Timeout);
    TextOfTwo(line + "\n", Error);
    TextOfOne(line + "\n");
    hide Steps, TextBefore, Ending, LinesOf, AllLines, UncutUpTo, AcceptedIn, MalformedIn, Captured;
    OutcomeOfRun(parse, [Stdout(line + "\n")]);
    OutcomeOfRun(parse, [Stdout(line), Close("")]);
    OutcomeOfRun(parse, [Stdout(line), Timeout]);
    OutcomeOfRun(parse, [Stdout(line), Error]);
    OutcomeOfRun(parse, [Stdout(line + "\n"), Timeout]);
    OutcomeOfRun(parse, [Stdout(line + "\n"), Error]);
  }

  ghost predicate Told<H, E>(o: Outcome<H, E>, cause: Cause, malformed: Option<E>) {
    o.Rejected? && o.cause == cause && o.malformed == malformed
  }

  lemma LoneLine<H, E>(parse: Parser<H, E>, line: string)
    requires "MPDBG-READY " <= line
    ensures AcceptedIn(parse, [line]) == (match parse(line) case Ok(h) => Some(h) case Err(_) => None)
    ensures MalformedIn(parse, [line]) == (match parse(line) case Ok(_) => None case Err(e) => Some(e))
    ensures AcceptedIn(parse, []) == None && MalformedIn(parse, []) == None
  {
    assert StartsWith(line, HANDSHAKE_PREFIX);
    assert [line][1..] == [];
  }

  lemma TextOfOne(text: string)
    ensures TextBefore([Stdout(text)]) + Tail(Ending([Stdout(text)])) == text
    ensures TextBefore([Stdout(text)]) == text && Ending([Stdout(text)]) == None
  {
    assert [Stdout(text)][1..] == [];
  }

  lemma TextOfTwo(text: string, e: Event)
    requires Terminal(e) && (e.Close? ==> e.tail == "")
    ensures var events := [Stdout(text), e];
            TextBefore(events) + Tail(Ending(events)) == text && TextBefore(events) == text && Ending(events) == Some(e)
  {
    assert [Stdout(text), e][1..] == [e];
  }

  // ----- what the output was offered -----

  /** The events that reach a run, up to the one that settles it. */
  ghost function Live<H, E>(parse: Parser<H, E>, r: Run<H, E>, events: seq<Event>): seq<Event>
    decreases |events|
  {
    if events == [] || !r.outcome.Pending? then []
    else [events[0]] + Live(parse, Step(parse, r, events[0]), events[1..])
  }

  /** They are the first ones, and all that counts. */
  lemma {:induction false} LiveCounts<H, E>(parse: Parser<H, E>, r: Run<H, E>, events: seq<Event>)
    requires Consistent(r)
    ensures Live(parse, r, events) <= events
    ensures Steps(parse, r, Live(parse, r, events)) == Steps(parse, r, events)
    decreases |events|
  {
    hide Step, Consistent;
    if events != [] && r.outcome.Pending? {
      var e, later := events[0], events[1..];
      StepConsistent(parse, r, e);
      LiveCounts(parse, Step(parse, r, e), later);
      assert ([e] + Live(parse, Step(parse, r, e), later))[1..] == Live(parse, Step(parse, r, e), later);
      assert events == [e] + later;
    } else if events != [] {
      SettledForGood(parse, r, events);
    }
  }

  /** What the scanner makes of an event: chunks are pushed, and the end of the stream flushes. */
  ghost function Heard<H, E>(parse: Parser<H, E>, s: State<H, E>, e: Event): State<H, E> {
    match e
    case Stdout(text) => Pushed(parse, s, text)
    case Close("") => Flushed(parse, s)
    case Close(tail) => Flushed(parse, Pushed(parse, s, tail))
    case _ => s
  }

  ghost function HeardAll<H, E>(parse: Parser<H, E>, s: State<H, E>, events: seq<Event>): State<H, E>
    decreases |events|
  {
    if events == [] then s else HeardAll(parse, Heard(parse, s, events[0]), events[1..])
  }

  function StderrTexts(events: seq<Event>): seq<string> {
    if events == [] then []
    else (if events[0].Stderr? then [events[0].text] else []) + StderrTexts(events[1..])
  }

  /** `all` is `a` and `b` mixed, each in its order. */
  predicate IsMerge(all: seq<string>, a: seq<string>, b: seq<string>) {
    if all == [] then a == [] && b == []
    else
      var n := |all| - 1;
      || (a != [] && a[|a| - 1] == all[n] && IsMerge(all[..n], a[..|a| - 1], b))
      || (b != [] && b[|b| - 1] == all[n] && IsMerge(all[..n], a, b[..|b| - 1]))
  }

  lemma MergeOne(all: seq<string>, a: seq<string>, b: seq<string>, x: string)
    requires IsMerge(all, a, b)
    ensures IsMerge(all + [x], a + [x], b) && IsMerge(all + [x], a, b + [x])
  {
    assert (all + [x])[..|all|] == all && (a + [x])[..|a|] == a && (b + [x])[..|b|] == b;
  }

  lemma {:induction false} MergeMany(all: seq<string>, a: seq<string>, b: seq<string>, more: seq<string>)
    requires IsMerge(all, a, b)
    ensures IsMerge(all + more, a, b + more)
    decreases |more|
  {
    if more == [] {
      AppendNone(all);
      AppendNone(b);
    } else {
      MergeOne(all, a, b, more[0]);
      MergeMany(all + [more[0]], a, b + [more[0]], more[1..]);
      hide IsMerge;
      assert [more[0]] + more[1..] == more;
      Associative(all, [more[0]], more[1..]);
      Associative(b, [more[0]], more[1..]);
    }
  }

  /** Mixed with nothing, the others are all there is. */
  lemma {:induction false} MergeAlone(all: seq<string>, b: seq<string>)
    requires IsMerge(all, [], b)
    ensures all == b
  {
    if all != [] {
      MergeAlone(all[..|all| - 1], b[..|b| - 1]);
      assert all == all[..|all| - 1] + [all[|all| - 1]];
    }
  }

  lemma ScannedMixes<H, E>(r: Run<H, E>, s: State<H, E>, errs: seq<string>)
    requires IsMerge(r.history, errs, r.scan.findings.reported) && r.scan.findings.reported <= s.findings.reported
    ensures IsMerge(Scanned(r, s).history, errs, s.findings.reported) && Scanned(r, s).scan == s
  {
    var n := |r.scan.findings.reported|;
    MergeMany(r.history, errs, r.scan.findings.reported, s.findings.reported[n..]);
    hide IsMerge;
    assert r.scan.findings.reported + s.findings.reported[n..] == s.findings.reported;
  }

  lemma FlushGrows<H, E>(parse: Parser<H, E>, s: State<H, E>)
    ensures s.findings.reported <= Flushed(parse, s).findings.reported
  {
  }

  lemma SettlingKeeps<H, E>(r: Run<H, E>)
    ensures forall outcome :: Settle(r, outcome).history == r.history && Settle(r, outcome).scan == r.scan
    ensures forall cause :: Reject(r, cause).history == r.history && Reject(r, cause).scan == r.scan
  {
    hide Captured;
  }

  lemma CloseMixes<H, E>(parse: Parser<H, E>, r: Run<H, E>, tail: string, errs: seq<string>)
    requires IsMerge(r.history, errs, r.scan.findings.reported)
    ensures var t := HandleClose(parse, r, tail);
            IsMerge(t.history, errs, t.scan.findings.reported) && t.scan == Heard(parse, r.scan, Close(tail))
  {
    var t := r;
    if tail != "" {
      ReportedGrows(parse, r.scan, tail);
      ScannedMixes(r, Pushed(parse, r.scan, tail), errs);
      t := Scanned(r, Pushed(parse, r.scan, tail));
    }
    FlushGrows(parse, t.scan);
    ScannedMixes(t, Flushed(parse, t.scan), errs);
    var u := Scanned(t, Flushed(parse, t.scan));
    SettlingKeeps(u);
    hide IsMerge, Pushed, Flushed, Scanned, Settle, Reject;
  }

  lemma StepMixes<H, E>(parse: Parser<H, E>, r: Run<H, E>, e: Event, errs: seq<string>)
    requires Consistent(r) && r.outcome.Pending? && IsMerge(r.history, errs, r.scan.findings.reported)
    ensures var t := Step(parse, r, e);
            && IsMerge(t.history, errs + StderrTexts([e]), t.scan.findings.reported)
            && t.scan == Heard(parse, r.scan, e)
  {
    AppendNone(errs);
    assert [e][1..] == [];
    if e.Stdout? {
      ReportedGrows(parse, r.scan, e.text);
      ScannedMixes(r, Pushed(parse, r.scan, e.text), errs);
    } else if e.Stderr? {
      MergeOne(r.history, errs, r.scan.findings.reported, e.text);
    } else if e.Close? {
      CloseMixes(parse, r, e.tail, errs);
    }
    hide IsMerge, Pushed, HandleClose, Captured;
  }

  lemma {:induction false} HistoryFrom<H, E>(parse: Parser<H, E>, r: Run<H, E>, events: seq<Event>, errs: seq<string>)
    requires Consistent(r) && IsMerge(r.history, errs, r.scan.findings.reported)
    ensures var t, live := Steps(parse, r, events), Live(parse, r, events);
            && IsMerge(t.history, errs + StderrTexts(live), t.scan.findings.reported)
            && t.scan == HeardAll(parse, r.scan, live)
    decreases |events|
  {
    hide Step, Consistent, IsMerge, Heard;
    AppendNone(errs);
    if events != [] && r.outcome.Pending? {
      var e, later := events[0], events[1..];
      StepConsistent(parse, r, e);
      StepMixes(parse, r, e, errs);
      var live := Live(parse, Step(parse, r, e), later);
      assert ([e] + live)[1..] == live && [e][1..] == [];
      HistoryFrom(parse, Step(parse, r, e), later, errs + StderrTexts([e]));
      assert StderrTexts([e] + live) == StderrTexts([e]) + StderrTexts(live);
      Associative(errs, StderrTexts([e]), StderrTexts(live));
    } else if events != [] {
      SettledForGood(parse, r, events);
    }
  }

  /**
   Over any events: until the run settles, the output is offered the stderr texts and the lines that a
   scanner of the stdout text reports, each in their order and nothing else.
   */
  lemma HistoryIsMerge<H, E>(parse: Parser<H, E>, events: seq<Event>)
    ensures var r, live := Steps(parse, Begin(), events), Live(parse, Begin(), events);
            IsMerge(r.history, StderrTexts(live), HeardAll(parse, Start(), live).findings.reported)
  {
    assert IsMerge([], [], []);
    hide Steps, Live, IsMerge;
    HistoryFrom(parse, Begin(), events, []);
    var live := Live(parse, Begin<H, E>(), events);
    assert [] + StderrTexts(live) == StderrTexts(live);
  }

  /** The text that `events` bring, the decoder's tail included. */
  function TextOf(events: seq<Event>): string {
    TextBefore(events) + Tail(Ending(events))
  }

  /** The lines it has; the end of the stream also ends the last one. */
  ghost function LinesHeard(events: seq<Event>): seq<string> {
    var ending := Ending(events);
    if ending.Some? && ending.value.Close? then AllLines(TextOf(events)) else LinesOf(TextOf(events))
  }

  lemma HeardPushed<H, E>(parse: Parser<H, E>, seen: string, text: string, later: string)
    requires LinesFit(seen + (text + later))
    ensures Pushed(parse, OnePass(parse, seen), text) == OnePass(parse, seen + text)
  {
    var all := seen + (text + later);
    var k := |Drain(ScanLine, all).bodies|;
    Associative(seen, text, later);
    BodiesSplit(seen, text + later);
    LinesFitOfPrefix(seen + text, later, k);
    hide OnePass, Pushed, LinesFitUpTo, Drain, FitsNext;
    LinesFitNext(seen, text, k);
    PushOne(parse, seen, text);
  }

  /** At most the last of the events ends the stream. */
  predicate EndsLast(events: seq<Event>) {
    forall i :: 0 <= i < |events| - 1 ==> !Terminal(events[i])
  }

  lemma EndsLastRest(events: seq<Event>)
    requires events != [] && EndsLast(events)
    ensures EndsLast(events[1..]) && (Terminal(events[0]) ==> events[1..] == [])
  {
    if |events| > 1 {
      assert !Terminal(events[0]);
      forall i | 0 <= i < |events[1..]| - 1
        ensures !Terminal(events[1..][i])
      {
        var j := i + 1;
        assert events[1..][i] == events[j];
      }
    }
  }

  lemma HeardEnding<H, E>(parse: Parser<H, E>, seen: string, e: Event)
    requires Terminal(e) && LinesFit(seen + Tail(Some(e)))
    ensures Heard(parse, OnePass(parse, seen), e).findings
         == FindingsIn(parse, if e.Close? then AllLines(seen + Tail(Some(e))) else LinesOf(seen + Tail(Some(e))))
  {
    hide OnePass, Pushed, Flushed, FindingsIn, AllLines, LinesOf;
    var tail := Tail(Some(e));
    AppendNone(seen);
    AppendNone(tail);
    if e.Close? {
      if tail != "" { HeardPushed(parse, seen, tail, ""); }
      FlushedOnePass(parse, seen + tail);
    } else {
      OnePassFindings(parse, seen);
    }
  }

  lemma {:induction false} HeardOf<H, E>(parse: Parser<H, E>, seen: string, events: seq<Event>)
    requires EndsLast(events) && LinesFit(seen + TextOf(events))
    ensures var ending, all := Ending(events), seen + TextOf(events);
            HeardAll(parse, OnePass(parse, seen), events).findings
            == FindingsIn(parse, if ending.Some? && ending.value.Close? then AllLines(all) else LinesOf(all))
    decreases |events|
  {
    hide LinesFit, OnePass, FindingsIn, AllLines, LinesOf, Pushed, Flushed, EndsLast;
    AppendNone(seen);
    if events == [] {
      assert TextOf(events) == "";
      OnePassFindings(parse, seen);
    } else {
      var e, later := events[0], events[1..];
      EndsLastRest(events);
      if Terminal(e) {
        assert TextOf(events) == "" + Tail(Some(e)) && "" + Tail(Some(e)) == Tail(Some(e));
        HeardEnding(parse, seen, e);
      } else {
        var text := if e.Stdout? then e.text else "";
        Associative(text, TextBefore(later), Tail(Ending(later)));
        Associative(seen, text, TextOf(later));
        if e.Stdout? {
          HeardPushed(parse, seen, text, TextOf(later));
        }
        HeardOf(parse, seen + text, later);
      }
    }
  }

  lemma EndingSettles<H, E>(parse: Parser<H, E>, r: Run<H, E>, e: Event)
    requires Consistent(r) && Terminal(e)
    ensures !Step(parse, r, e).outcome.Pending?
  {
    hide Pushed, Flushed, Captured;
  }

  lemma {:induction false} LiveEndsLast<H, E>(parse: Parser<H, E>, r: Run<H, E>, events: seq<Event>)
    requires Consistent(r)
    ensures EndsLast(Live(parse, r, events))
    decreases |events|
  {
    hide Step, Consistent;
    if events != [] && r.outcome.Pending? {
      var e, later := events[0], events[1..];
      StepConsistent(parse, r, e);
      if Terminal(e) { EndingSettles(parse, r, e); }
      LiveEndsLast(parse, Step(parse, r, e), later);
      var live := Live(parse, Step(parse, r, e), later);
      forall i | 0 <= i < |[e] + live| - 1
        ensures !Terminal(([e] + live)[i])
      {
        assert i > 0 ==> ([e] + live)[i] == live[i - 1];
      }
    }
  }

  /**
   Without stderr, and with no line over the cap, the output is offered exactly what one pass over the
   lines of the text reports: every line but the handshake and the ready lines behind it.
   */
  lemma HistoryOfText<H, E>(parse: Parser<H, E>, events: seq<Event>)
    requires StderrTexts(Live(parse, Begin(), events)) == [] && LinesFit(TextOf(Live(parse, Begin(), events)))
    ensures Steps(parse, Begin(), events).history == Reported(parse, LinesHeard(Live(parse, Begin(), events)))
  {
    var live := Live(parse, Begin<H, E>(), events);
    HistoryIsMerge(parse, events);
    MergeAlone(Steps(parse, Begin(), events).history, HeardAll(parse, Start(), live).findings.reported);
    LiveEndsLast(parse, Begin<H, E>(), events);
    assert Start<H, E>() == OnePass(parse, "") by { PushFromStart(parse, []); }
    assert "" + TextOf(live) == TextOf(live);
    hide Steps, Live, LinesFit, OnePass, TextOf, AllLines, LinesOf, EndsLast, Reported;
    HeardOf(parse, "", live);
  }

  /** A rejection shows the end of what was offered: at most 200 entries, each with at most 4000 characters of its own. */
  lemma CapturedIs<H, E>(parse: Parser<H, E>, events: seq<Event>)
    requires Steps(parse, Begin(), events).outcome.Rejected?
    ensures var r := Steps(parse, Begin(), events);
            var shown, all := r.outcome.captured, r.history;
            && |shown| == (if |all| < 200 then |all| else 200)
            && forall i :: 0 <= i < |shown| ==>
                  var text := all[|all| - |shown| + i];
                  if |text| <= 4000 then shown[i] == text
                  else |shown[i]| == 4014 && shown[i][..4000] == text[..4000] && shown[i][4000..] == "...[truncated]"
  {
    hide Steps;
    RunConsistent(parse, Begin<H, E>(), events);
  }

  // ----- the closure's own state, updated in place -----

  class DebugRun<H, E> {
    const parse: Parser<H, E>
    const scanner: HandshakeScanner<H, E>
    var outputLines: seq<string>
    var settled: bool
    var outcome: Outcome<H, E>
    var listeners: set<Listener>
    var timer: bool
    var kills: nat
    /** Everything `PushOutput` was called with. */
    ghost var history: seq<string>

    ghost predicate Valid()
      reads this, scanner
    {
      && scanner.parse == parse
      && outputLines == LastOf(Clips(history), MAX_OUTPUT_LINES)
      && (settled <==> !outcome.Pending?)
    }

    ghost function Now(): Run<H, E>
      reads this, scanner
    {
      Run(scanner.Now(), history, outcome, listeners, timer, kills)
    }

    constructor (parse: Parser<H, E>)
      ensures Valid() && fresh(scanner) && this.parse == parse && Now() == Begin()
    {
      this.parse := parse;
      scanner := new HandshakeScanner(parse);
      outputLines, settled, outcome := [], false, Pending;
      listeners, timer, kills := {OnStdout, OnStderr, OnClose, OnError}, true, 0;
      history := [];
    }

    method PushOutput(text: string)
      requires Valid()
      modifies this`outputLines, this`history
      ensures Valid() && history == old(history) + [text]
    {
      var trimmed := if |text| > MAX_LINE_CHARS then text[..MAX_LINE_CHARS] + "...[truncated]" else text;
      LastOfAppend(Clips(history), trimmed, MAX_OUTPUT_LINES);
      ClipsAppend(history, text);
      outputLines := outputLines + [trimmed];
      if |outputLines| > MAX_OUTPUT_LINES {
        outputLines := outputLines[1..];
      }
      history := history + [text];
    }

    /** The scanner's callback, for the lines it reported from number `from` on. */
    method PushReported(from: nat)
      requires Valid() && from <= |scanner.reported|
      modifies this`outputLines, this`history
      ensures Valid() && history == old(history) + scanner.reported[from..]
    {
      var i := from;
      assert history == history + scanner.reported[from..i];
      while i < |scanner.reported|
        invariant from <= i <= |scanner.reported|
        invariant Valid() && history == old(history) + scanner.reported[from..i]
      {
        ReportNext(old(history), scanner.reported, from, i);
        PushOutput(scanner.reported[i]);
        i := i + 1;
      }
      assert scanner.reported[from..i] == scanner.reported[from..];
    }

    method CleanupListeners()
      modifies this`timer, this`listeners
      ensures !timer && listeners == old(listeners) - ALL_LISTENERS
    {
      timer := false;
      listeners := listeners - {OnStdout} - {OnStderr} - {OnClose} - {OnError};
    }

    method SettleResolve(handshake: H)
      requires Valid() && listeners <= ALL_LISTENERS
      modifies this
      ensures Valid() && Now() == Settle(old(Now()), Resolved(handshake))
    {
      if settled { return; }
      settled := true;
      CleanupListeners();
      outcome := Resolved(handshake);
    }

    method SettleReject(cause: Cause, malformed: Option<E>)
      requires Valid() && listeners <= ALL_LISTENERS
      modifies this
      ensures Valid() && Now() == Settle(old(Now()), Rejected(cause, malformed, Captured(old(Now()))))
    {
      if settled { return; }
      settled := true;
      CleanupListeners();
      kills := kills + 1;
      outcome := Rejected(cause, malformed, outputLines);
    }

    method HandleStdoutData(text: string)
      requires Valid() && listeners <= ALL_LISTENERS
      modifies this, scanner
      ensures Valid() && Now() == HandleStdout(parse, old(Now()), text)
    {
      hide Pushed, Clips, LastOf, Captured;
      ReportedGrows(parse, scanner.Now(), text);
      var before := |scanner.reported|;
      var handshake := scanner.Push(text);
      PushReported(before);
      if handshake.Some? {
        SettleResolve(handshake.value);
      }
    }

    method HandleCloseEvent(tail: string)
      requires Valid() && listeners <= ALL_LISTENERS
      modifies this, scanner
      ensures Valid() && Now() == HandleClose(parse, old(Now()), tail)
    {
      hide Pushed, Clips, LastOf, Captured;
      ReportedGrows(parse, scanner.Now(), tail);
      var before := |scanner.reported|;
      if tail != "" {
        var _ := scanner.Push(tail);
        PushReported(before);
        before := |scanner.reported|;
      }
      var handshake := scanner.Flush();
      PushReported(before);
      if handshake.Some? {
        SettleResolve(handshake.value);
        return;
      }
      SettleReject(EndOfStream, scanner.malformed);
    }

    /** The runtime delivers one event. */
    method Fire(e: Event)
      requires Valid() && Consistent(Now())
      modifies this, scanner
      ensures Valid() && Consistent(Now()) && Now() == Step(parse, old(Now()), e)
    {
      StepConsistent(parse, Now(), e);
      match e {
        case Stdout(text) => if OnStdout in listeners { HandleStdoutData(text); }
        case Stderr(text) => if OnStderr in listeners { PushOutput(text); }
        case Close(tail) => if OnClose in listeners { HandleCloseEvent(tail); }
        case Error => if OnError in listeners { SettleReject(FailedToStart, None); }
        case Timeout =>
          if timer {
            timer := false;
            SettleReject(TimedOut, scanner.malformed);
          }
      }
    }
  }

  lemma ReportNext(history: seq<string>, reported: seq<string>, from: nat, i: nat)
    requires from <= i < |reported|
    ensures history + reported[from..i + 1] == history + reported[from..i] + [reported[i]]
  {
  }
}
