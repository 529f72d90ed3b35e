/**
 The incremental line scanner that looks for the `MPDBG-READY` handshake in a child's output.
 Parsing the line itself is a parameter: any function from lines to a handshake or an error.

 What a scanner has found is compared with one pass over the lines of the whole text: it is the
 same for all ways to cut the text into chunks, except where a line is so long that the cap on
 the buffer takes the front of it away. The last sections say exactly when that happens, and
 what it does to the lines reported and to the handshake.
 */
module Handshake {
  import opened Wrappers
  import opened Text
  import opened Framing

  const HANDSHAKE_PREFIX := "MPDBG-READY "
  const MAX_BUF_CHARS := 64 * 1024

  type Parser<!H, !E> = string -> Result<H, E>

  /** One line cut at its newline, which belongs to neither part. */
  function ScanLine(buf: string): Scan<char> {
    var i := Find(buf, "\n");
    if i < 0 then NeedMore else Frame(buf[..i], buf[i + 1..])
  }

  lemma ScanLineIncremental()
    ensures Incremental(ScanLine)
  {
    forall a: string, b: string
      ensures Stable(ScanLine, a, b)
    {
      var i := Find(a, "\n");
      if i >= 0 {
        FindStable(a, b, "\n");
        SliceWithin(a, b, 0, i);
        SliceWithin(a, b, i, i + 1);
      }
    }
  }

  function StripCr(line: string): string {
    if line != "" && line[|line| - 1] == '\r' then line[..|line| - 1] else line
  }

  function StripCrs(lines: seq<string>): seq<string> {
    seq(|lines|, i requires 0 <= i < |lines| => StripCr(lines[i]))
  }

  /** What the scanner has made of the lines so far: the handshake, the first failure, the lines reported. */
  datatype Findings<H, E> = Findings(found: Option<H>, malformed: Option<E>, reported: seq<string>)

  /** `consumeLine`. */
  function Consume<H, E>(parse: Parser<H, E>, f: Findings<H, E>, line: string): Findings<H, E> {
    if StartsWith(line, HANDSHAKE_PREFIX) && f.found.None? then
      match parse(line)
      case Ok(h) => f.(found := Some(h))
      case Err(e) =>
        f.(malformed := if f.malformed.None? then Some(e) else f.malformed, reported := f.reported + [line])
    else if StartsWith(line, HANDSHAKE_PREFIX) then f
    else f.(reported := f.reported + [line])
  }

  function ConsumeAll<H, E>(parse: Parser<H, E>, f: Findings<H, E>, lines: seq<string>): Findings<H, E>
    decreases |lines|
  {
    if lines == [] then f else ConsumeAll(parse, Consume(parse, f, lines[0]), lines[1..])
  }

  lemma {:induction false} ConsumeAllAppend<H, E>(parse: Parser<H, E>, f: Findings<H, E>, a: seq<string>, b: seq<string>)
    ensures ConsumeAll(parse, f, a + b) == ConsumeAll(parse, ConsumeAll(parse, f, a), b)
    decreases |a|
  {
    if a == [] {
      assert a + b == b;
    } else {
      assert (a + b)[1..] == a[1..] + b;
      ConsumeAllAppend(parse, Consume(parse, f, a[0]), a[1..], b);
    }
  }

  // ----- what the findings are, line by line -----

  predicate IsReady(line: string) {
    StartsWith(line, HANDSHAKE_PREFIX)
  }

  predicate Accepts<H, E>(parse: Parser<H, E>, line: string) {
    IsReady(line) && parse(line).Ok?
  }

  /** The first line that carries the prefix and parses; the number of lines when none does. */
  function FirstAccepted<H, E>(parse: Parser<H, E>, lines: seq<string>): (k: nat)
    ensures k <= |lines|
  {
    if lines == [] || Accepts(parse, lines[0]) then 0 else 1 + FirstAccepted(parse, lines[1..])
  }

  lemma {:induction false} FirstAcceptedIsFirst<H, E>(parse: Parser<H, E>, lines: seq<string>)
    ensures var k := FirstAccepted(parse, lines);
            (k < |lines| ==> Accepts(parse, lines[k])) && forall i :: 0 <= i < k ==> !Accepts(parse, lines[i])
  {
    if lines != [] && !Accepts(parse, lines[0]) {
      FirstAcceptedIsFirst(parse, lines[1..]);
    }
  }

  /** The first line that carries the prefix; the number of lines when none does. */
  function FirstReady(lines: seq<string>): (k: nat)
    ensures k <= |lines|
  {
    if lines == [] || IsReady(lines[0]) then 0 else 1 + FirstReady(lines[1..])
  }

  lemma {:induction false} FirstReadyIsFirst(lines: seq<string>)
    ensures var k := FirstReady(lines);
            (k < |lines| ==> IsReady(lines[k])) && forall i :: 0 <= i < k ==> !IsReady(lines[i])
  {
    if lines != [] && !IsReady(lines[0]) {
      FirstReadyIsFirst(lines[1..]);
    }
  }

  function Success<H, E>(r: Result<H, E>): Option<H> {
    match r
    case Ok(h) => Some(h)
    case Err(_) => None
  }

  function Failure<H, E>(r: Result<H, E>): Option<E> {
    match r
    case Ok(_) => None
    case Err(e) => Some(e)
  }

  /** The lines that do not carry the prefix, in order. */
  function Plain(lines: seq<string>): seq<string> {
    if lines == [] then []
    else (if IsReady(lines[0]) then [] else [lines[0]]) + Plain(lines[1..])
  }

  lemma {:induction false} AfterFound<H, E>(parse: Parser<H, E>, f: Findings<H, E>, lines: seq<string>)
    requires f.found.Some?
    ensures ConsumeAll(parse, f, lines) == f.(reported := f.reported + Plain(lines))
    decreases |lines|
  {
    if lines == [] {
      assert f.reported + [] == f.reported;
    } else {
      AfterFound(parse, Consume(parse, f, lines[0]), lines[1..]);
      Associative(f.reported, if IsReady(lines[0]) then [] else [lines[0]], Plain(lines[1..]));
      assert f.reported + [] == f.reported;
    }
  }

  /** All of `lines` but the accepted one and the prefixed ones behind it. */
  function Reported<H, E>(parse: Parser<H, E>, lines: seq<string>): seq<string> {
    var k := FirstAccepted(parse, lines);
    if k < |lines| then lines[..k] + Plain(lines[k + 1..]) else lines
  }

  function AcceptedIn<H, E>(parse: Parser<H, E>, lines: seq<string>): Option<H> {
    var k := FirstAccepted(parse, lines);
    if k < |lines| then Success(parse(lines[k])) else None
  }

  function MalformedIn<H, E>(parse: Parser<H, E>, lines: seq<string>): Option<E> {
    var r := FirstReady(lines);
    if r < FirstAccepted(parse, lines) then Failure(parse(lines[r])) else None
  }

  function FindingsIn<H, E>(parse: Parser<H, E>, lines: seq<string>): Findings<H, E> {
    Findings(AcceptedIn(parse, lines), MalformedIn(parse, lines), Reported(parse, lines))
  }

  lemma ReportedCons<H, E>(parse: Parser<H, E>, lines: seq<string>)
    requires lines != [] && !Accepts(parse, lines[0])
    ensures Reported(parse, lines) == [lines[0]] + Reported(parse, lines[1..])
    ensures AcceptedIn(parse, lines) == AcceptedIn(parse, lines[1..])
    ensures MalformedIn(parse, lines)
         == if IsReady(lines[0]) then Failure(parse(lines[0])) else MalformedIn(parse, lines[1..])
  {
    var k := FirstAccepted(parse, lines);
    assert k == 1 + FirstAccepted(parse, lines[1..]);
    if k < |lines| {
      TakeCons(lines, k);
      assert lines[1..][k..] == lines[k + 1..];
      Associative([lines[0]], lines[1..][..k - 1], Plain(lines[k + 1..]));
    } else {
      assert lines == [lines[0]] + lines[1..];
    }
  }

  lemma ReportedAccepted<H, E>(parse: Parser<H, E>, lines: seq<string>)
    requires lines != [] && Accepts(parse, lines[0])
    ensures Reported(parse, lines) == Plain(lines[1..])
  {
    assert lines[..0] + Plain(lines[1..]) == Plain(lines[1..]);
  }

  lemma {:induction false} FindingsFrom<H, E>(parse: Parser<H, E>, f: Findings<H, E>, lines: seq<string>)
    requires f.found.None?
    ensures ConsumeAll(parse, f, lines)
         == Findings(AcceptedIn(parse, lines),
                     if f.malformed.Some? then f.malformed else MalformedIn(parse, lines),
                     f.reported + Reported(parse, lines))
    decreases |lines|
  {
    hide Reported;
    if lines == [] {
      assert Reported(parse, lines) == [] by { ReportedNone(parse); }
      assert f.reported + [] == f.reported;
    } else if Accepts(parse, lines[0]) {
      AfterFound(parse, Consume(parse, f, lines[0]), lines[1..]);
      ReportedAccepted(parse, lines);
    } else {
      FindingsFrom(parse, Consume(parse, f, lines[0]), lines[1..]);
      ReportedCons(parse, lines);
      Associative(f.reported, [lines[0]], Reported(parse, lines[1..]));
    }
  }

  lemma ReportedNone<H, E>(parse: Parser<H, E>)
    ensures Reported(parse, []) == []
  {
  }

  /**
   Over any lines: the handshake is that of the first prefixed line that parses; the failure kept is
   that of the first prefixed line, provided it comes before and does not parse; and every line is
   reported, in order, except the accepted one and the prefixed ones behind it.
   */
  lemma FindingsOf<H, E>(parse: Parser<H, E>, lines: seq<string>)
    ensures ConsumeAll(parse, Findings(None, None, []), lines) == FindingsIn(parse, lines)
  {
    FindingsFrom(parse, Findings(None, None, []), lines);
    assert [] + Reported(parse, lines) == Reported(parse, lines);
  }

  // ----- the buffer -----

  datatype State<H, E> = State(buf: string, findings: Findings<H, E>)

  function Start<H, E>(): State<H, E> {
    State("", Findings(None, None, []))
  }

  /** Only the most recent characters of an unterminated line are kept. */
  function Cap(buf: string): string {
    if |buf| > MAX_BUF_CHARS then buf[|buf| - MAX_BUF_CHARS..] else buf
  }

  ghost function Pushed<H, E>(parse: Parser<H, E>, s: State<H, E>, chunk: string): State<H, E> {
    var d := Drain(ScanLine, s.buf + chunk);
    State(Cap(d.left), ConsumeAll(parse, s.findings, StripCrs(d.bodies)))
  }

  function Flushed<H, E>(parse: Parser<H, E>, s: State<H, E>): State<H, E> {
    if s.buf == "" then s else State("", Consume(parse, s.findings, s.buf))
  }

  ghost function PushedAll<H, E>(parse: Parser<H, E>, s: State<H, E>, chunks: seq<string>): State<H, E>
    decreases |chunks|
  {
    if chunks == [] then s else PushedAll(parse, Pushed(parse, s, chunks[0]), chunks[1..])
  }

  class HandshakeScanner<H, E> {
    const parse: Parser<H, E>
    var buf: string
    var found: Option<H>
    var malformed: Option<E>
    /** Every line the callback was called with. */
    var reported: seq<string>

    function Now(): State<H, E>
      reads this
    {
      State(buf, Findings(found, malformed, reported))
    }

    constructor (parse: Parser<H, E>)
      ensures this.parse == parse && Now() == Start()
    {
      this.parse := parse;
      buf, found, malformed, reported := "", None, None, [];
    }

    method ConsumeLine(line: string)
      modifies this`found, this`malformed, this`reported
      ensures Now() == State(old(buf), Consume(parse, old(Now()).findings, line))
    {
      if StartsWith(line, HANDSHAKE_PREFIX) && found.None? {
        match parse(line) {
          case Ok(h) =>
            found := Some(h);
            return;
          case Err(e) =>
            if malformed.None? { malformed := Some(e); }
        }
      } else if StartsWith(line, HANDSHAKE_PREFIX) {
        return;
      }
      reported := reported + [line];
    }

    method Push(chunk: string) returns (handshake: Option<H>)
      modifies this
      ensures Now() == Pushed(parse, old(Now()), chunk) && handshake == found
    {
      hide Pushed, Ahead, Consume, ConsumeAll, StripCrs, Find, At, ScanLine;
      buf := buf + chunk;
      ghost var target := Ahead(parse, Now());
      PushedIsAhead(parse, old(Now()), chunk);
      var idx := Find(buf, "\n");
      while idx != -1
        invariant idx == Find(buf, "\n")
        invariant Ahead(parse, Now()) == target
        decreases |buf|
      {
        var line := buf[..idx];
        AheadStep(parse, Now());
        buf := buf[idx + 1..];
        ConsumeLine(if line != "" && line[|line| - 1] == '\r' then line[..|line| - 1] else line);
        idx := Find(buf, "\n");
      }
      AheadEnd(parse, Now());
      if |buf| > MAX_BUF_CHARS {
        buf := buf[|buf| - MAX_BUF_CHARS..];
      }
      return found;
    }

    method Flush() returns (handshake: Option<H>)
      modifies this
      ensures Now() == Flushed(parse, old(Now())) && handshake == found
    {
      if |buf| > 0 {
        var rest := buf;
        buf := "";
        ConsumeLine(rest);
      }
      return found;
    }
  }

  /** Where the loop of `Push` will end, before the buffer is capped. */
  ghost function Ahead<H, E>(parse: Parser<H, E>, s: State<H, E>): State<H, E> {
    var d := Drain(ScanLine, s.buf);
    State(d.left, ConsumeAll(parse, s.findings, StripCrs(d.bodies)))
  }

  lemma PushedIsAhead<H, E>(parse: Parser<H, E>, s: State<H, E>, chunk: string)
    ensures var a := Ahead(parse, s.(buf := s.buf + chunk)); Pushed(parse, s, chunk) == a.(buf := Cap(a.buf))
  {
  }

  lemma AheadStep<H, E>(parse: Parser<H, E>, s: State<H, E>)
    requires Find(s.buf, "\n") >= 0
    ensures var i := Find(s.buf, "\n");
            Ahead(parse, s) == Ahead(parse, State(s.buf[i + 1..], Consume(parse, s.findings, StripCr(s.buf[..i]))))
  {
    var i := Find(s.buf, "\n");
    var d := Drain(ScanLine, s.buf[i + 1..]);
    hide Drain;
    DrainCuts(ScanLine, s.buf, s.buf[..i], s.buf[i + 1..]);
    StripCrsCons(s.buf[..i], d.bodies);
    assert StripCrs([s.buf[..i]] + d.bodies)[1..] == StripCrs(d.bodies);
  }

  lemma AheadEnd<H, E>(parse: Parser<H, E>, s: State<H, E>)
    requires Find(s.buf, "\n") == -1
    ensures Ahead(parse, s) == s
  {
  }

  lemma StripCrsCons(line: string, lines: seq<string>)
    ensures StripCrs([line] + lines) == [StripCr(line)] + StripCrs(lines)
  {
  }

  // ----- chunks -----

  /** The whole text read in one go: the lines it has, and as much as is kept of the rest behind them. */
  ghost function OnePass<H, E>(parse: Parser<H, E>, text: string): State<H, E> {
    var d := Drain(ScanLine, text);
    State(Cap(d.left), ConsumeAll(parse, Findings(None, None, []), StripCrs(d.bodies)))
  }

  /** Of the terminated lines of `text`, those up to number `k` have at most `MAX_BUF_CHARS` characters. */
  ghost predicate LinesFitUpTo(text: string, k: nat) {
    var lines := Drain(ScanLine, text).bodies;
    forall i :: 0 <= i < |lines| && i <= k ==> |lines[i]| <= MAX_BUF_CHARS
  }

  /** Every terminated line of `text` has at most `MAX_BUF_CHARS` characters. */
  ghost predicate LinesFit(text: string) {
    LinesFitUpTo(text, |Drain(ScanLine, text).bodies|)
  }

  /** The lines a text is drained into are the pieces between its newlines. */
  lemma {:induction false} LinesAreSplit(text: string)
    ensures var d := Drain(ScanLine, text); Split(text, "\n") == d.bodies + [d.left] && !d.broken
    decreases |text|
  {
    var i := Find(text, "\n");
    if i >= 0 {
      LinesAreSplit(text[i + 1..]);
      var d := Drain(ScanLine, text[i + 1..]);
      Associative([text[..i]], d.bodies, [d.left]);
    }
  }

  lemma NewlineFree(s: string)
    ensures Find(s, "\n") == -1 <==> '\n' !in s
  {
    FindFirst(s, "\n");
    if j :| 0 <= j < |s| && s[j] == '\n' {
      assert s[j..j + 1] == "\n";
      assert At(s, "\n", j);
    }
    var i := Find(s, "\n");
    assert i >= 0 ==> s[i] == s[i..i + 1][0];
  }

  lemma FindBehind(begun: string, more: string)
    requires '\n' !in begun
    ensures Find(begun + more, "\n") == if Find(more, "\n") < 0 then -1 else |begun| + Find(more, "\n")
  {
    var i := Find(more, "\n");
    if i < 0 {
      NewlineFree(more);
      NewlineFree(begun + more);
    } else {
      FindFirst(more, "\n");
      var at := |begun| + i;
      assert (begun + more)[at..at + 1] == more[i..i + 1];
      forall j | 0 <= j < at
        ensures !At(begun + more, "\n", j)
      {
        assert (begun + more)[j..j + 1][0] == if j < |begun| then begun[j] else more[j - |begun|];
        assert j >= |begun| ==> !At(more, "\n", j - |begun|) && more[j - |begun|..j - |begun| + 1] == [more[j - |begun|]];
      }
      FindIs(begun + more, "\n", at);
    }
  }

  /** A line begun in the buffer only gets longer when more text arrives. */
  lemma LineGrows(begun: string, more: string)
    requires Find(begun, "\n") == -1
    ensures var d := Drain(ScanLine, begun + more);
            |begun| <= if d.bodies == [] then |d.left| else |d.bodies[0]|
  {
    NewlineFree(begun);
    FindBehind(begun, more);
  }

  lemma LeftHasNoNewline(text: string)
    ensures Find(Drain(ScanLine, text).left, "\n") == -1
    decreases |text|
  {
    var i := Find(text, "\n");
    if i >= 0 {
      LeftHasNoNewline(text[i + 1..]);
    }
  }

  lemma BodiesSplit(a: string, b: string)
    ensures Drain(ScanLine, a + b).bodies
         == Drain(ScanLine, a).bodies + Drain(ScanLine, Drain(ScanLine, a).left + b).bodies
  {
    ScanLineIncremental();
    hide ScanLine;
    DrainSplit(ScanLine, a, b);
  }

  lemma LinesFitOfPrefix(a: string, b: string, k: nat)
    requires LinesFitUpTo(a + b, k)
    ensures LinesFitUpTo(a, k)
  {
    BodiesSplit(a, b);
    hide Drain, ScanLine;
    var lines, all := Drain(ScanLine, a).bodies, Drain(ScanLine, a + b).bodies;
    assert forall i :: 0 <= i < |lines| ==> all[i] == lines[i];
  }

  /** If the chunk ends the line that was begun before it, nothing of that line was dropped. */
  ghost predicate FitsNext(seen: string, chunk: string) {
    Find(chunk, "\n") >= 0 ==> |Drain(ScanLine, seen).left| <= MAX_BUF_CHARS
  }

  lemma LinesFitNext(seen: string, chunk: string, k: nat)
    requires LinesFitUpTo(seen + chunk, k) && |Drain(ScanLine, seen).bodies| <= k
    ensures FitsNext(seen, chunk)
  {
    var d := Drain(ScanLine, seen);
    if Find(chunk, "\n") >= 0 {
      LeftHasNoNewline(seen);
      LineGrows(d.left, chunk);
      NewlineFree(d.left);
      FindBehind(d.left, chunk);
      BodiesSplit(seen, chunk);
      assert Drain(ScanLine, seen + chunk).bodies[|d.bodies|] == Drain(ScanLine, d.left + chunk).bodies[0];
    }
  }

  lemma CapOnce(u: string, more: string)
    ensures Cap(Cap(u) + more) == Cap(u + more)
  {
    if |u| > MAX_BUF_CHARS {
      assert u + more == u[..|u| - MAX_BUF_CHARS] + (Cap(u) + more);
    }
  }

  lemma Unterminated(u: string, more: string)
    requires '\n' !in u && Find(more, "\n") < 0
    ensures Drain(ScanLine, u + more) == Drained([], u + more, false)
  {
    FindBehind(u, more);
  }

  /** What is kept of a line begun before a chunk is all that matters of it. */
  lemma KeptIsEnough(seen: string, chunk: string)
    requires FitsNext(seen, chunk)
    ensures var u := Drain(ScanLine, seen).left;
            var e, d := Drain(ScanLine, Cap(u) + chunk), Drain(ScanLine, u + chunk);
            e.bodies == d.bodies && Cap(e.left) == Cap(d.left)
  {
    var u := Drain(ScanLine, seen).left;
    LeftHasNoNewline(seen);
    NewlineFree(u);
    if Find(chunk, "\n") < 0 {
      assert '\n' !in Cap(u);
      Unterminated(u, chunk);
      Unterminated(Cap(u), chunk);
      CapOnce(u, chunk);
    }
  }

  /** A chunk takes the scanner from the reading of what came before it to that of all so far. */
  lemma PushOne<H, E>(parse: Parser<H, E>, seen: string, chunk: string)
    requires FitsNext(seen, chunk)
    ensures Pushed(parse, OnePass(parse, seen), chunk) == OnePass(parse, seen + chunk)
  {
    ScanLineIncremental();
    KeptIsEnough(seen, chunk);
    hide ScanLine, ConsumeAll, Find, Cap, FitsNext;
    var d := Drain(ScanLine, seen);
    var e := Drain(ScanLine, d.left + chunk);
    DrainSplit(ScanLine, seen, chunk);
    hide Drain;
    assert StripCrs(d.bodies + e.bodies) == StripCrs(d.bodies) + StripCrs(e.bodies);
    ConsumeAllAppend(parse, Findings(None, None, []), StripCrs(d.bodies), StripCrs(e.bodies));
  }

  lemma {:induction false} PushMany<H, E>(parse: Parser<H, E>, seen: string, chunks: seq<string>)
    requires LinesFit(seen + Concat(chunks))
    ensures PushedAll(parse, OnePass(parse, seen), chunks) == OnePass(parse, seen + Concat(chunks))
    decreases |chunks|
  {
    if chunks == [] {
      assert seen + Concat(chunks) == seen;
    } else {
      var all := seen + chunks[0] + Concat(chunks[1..]);
      var k := |Drain(ScanLine, all).bodies|;
      Associative(seen, chunks[0], Concat(chunks[1..]));
      LinesFitOfPrefix(seen + chunks[0], Concat(chunks[1..]), k);
      BodiesSplit(seen, chunks[0] + Concat(chunks[1..]));
      hide OnePass, Pushed, LinesFitUpTo, Drain, FitsNext;
      LinesFitNext(seen, chunks[0], k);
      PushOne(parse, seen, chunks[0]);
      PushMany(parse, seen + chunks[0], chunks[1..]);
    }
  }

  /**
   When no terminated line is over the cap, cutting the text into chunks changes nothing: the scanner
   holds the end of the unterminated rest, however long that is, and its findings are those of the
   lines of the text.
   */
  lemma ChunkingIrrelevant<H, E>(parse: Parser<H, E>, chunks: seq<string>)
    requires LinesFit(Concat(chunks))
    ensures var d := Drain(ScanLine, Concat(chunks));
            PushedAll(parse, Start(), chunks) == State(Cap(d.left), FindingsIn(parse, StripCrs(d.bodies)))
  {
    FindingsOf(parse, StripCrs(Drain(ScanLine, Concat(chunks)).bodies));
    PushFromStart(parse, chunks);
  }

  /** The lines of a text that has ended: what is kept of an unterminated rest is a line too, its carriage return kept. */
  ghost function AllLines(text: string): seq<string> {
    var d := Drain(ScanLine, text);
    StripCrs(d.bodies) + if d.left == "" then [] else [Cap(d.left)]
  }

  /** At the end of the stream, whatever the chunks were, the findings are those of all its lines. */
  lemma FlushedFindings<H, E>(parse: Parser<H, E>, chunks: seq<string>)
    requires LinesFit(Concat(chunks))
    ensures Flushed(parse, PushedAll(parse, Start(), chunks)).findings == FindingsIn(parse, AllLines(Concat(chunks)))
  {
    PushFromStart(parse, chunks);
    FlushedOnePass(parse, Concat(chunks));
  }

  lemma FlushedOnePass<H, E>(parse: Parser<H, E>, text: string)
    ensures Flushed(parse, OnePass(parse, text)).findings == FindingsIn(parse, AllLines(text))
  {
    FindingsOf(parse, AllLines(text));
    hide ScanLine, FindingsIn, Consume;
    var d := Drain(ScanLine, text);
    hide Drain;
    if d.left == "" {
      assert AllLines(text) == StripCrs(d.bodies);
    } else {
      ConsumeAllAppend(parse, Findings(None, None, []), StripCrs(d.bodies), [Cap(d.left)]);
      ConsumeLast(parse, OnePass(parse, text).findings, Cap(d.left));
    }
  }

  lemma ConsumeLast<H, E>(parse: Parser<H, E>, f: Findings<H, E>, line: string)
    ensures ConsumeAll(parse, f, [line]) == Consume(parse, f, line)
  {
    assert ConsumeAll(parse, f, [line]) == ConsumeAll(parse, Consume(parse, f, line), [line][1..]);
  }

  lemma PushFromStart<H, E>(parse: Parser<H, E>, chunks: seq<string>)
    requires LinesFit(Concat(chunks))
    ensures PushedAll(parse, Start(), chunks) == OnePass(parse, Concat(chunks))
  {
    assert Start<H, E>() == OnePass(parse, "");
    assert "" + Concat(chunks) == Concat(chunks);
    hide ScanLine;
    PushMany(parse, "", chunks);
  }

  // ----- lines over the cap -----

  lemma DrainsFirst(text: string)
    requires Drain(ScanLine, text).bodies != []
    ensures var at := Find(text, "\n");
            at >= 0 && Drain(ScanLine, text).bodies == [text[..at]] + Drain(ScanLine, text[at + 1..]).bodies
  {
  }

  /** The first line of a text that has one. */
  lemma FirstLine(text: string) returns (first: string, rest: string)
    requires Drain(ScanLine, text).bodies != []
    ensures text == first + ("\n" + rest) && '\n' !in first
    ensures Drain(ScanLine, text).bodies == [first] + Drain(ScanLine, rest).bodies
  {
    hide Drain, ScanLine, Find;
    DrainsFirst(text);
    FirstNewline(text);
    FindFirst(text, "\n");
    var at := Find(text, "\n");
    first, rest := text[..at], text[at + 1..];
    CutChunk(text, "", at);
    assert text + "" == text && rest + "" == rest;
  }

  /** Line number `i` of a text, what is before it and what is behind its newline. */
  lemma {:induction false} CutAt(text: string, i: nat) returns (a: string, line: string, b: string)
    requires i < |Drain(ScanLine, text).bodies|
    ensures text == a + (line + ("\n" + b)) && '\n' !in line && line == Drain(ScanLine, text).bodies[i]
    ensures Drain(ScanLine, a).left == ""
    decreases |text|
  {
    hide Drain, ScanLine;
    var first, rest := FirstLine(text);
    if i == 0 {
      a, line, b := "", first, rest;
      EmptyLeft(text);
    } else {
      var front;
      front, line, b := CutAt(rest, i - 1);
      a := first + ("\n" + front);
      ThreeBehind(first, front, line + ("\n" + b));
      DrainLine(first, front);
    }
  }

  lemma EmptyLeft(text: string)
    ensures "" + text == text && Drain(ScanLine, "").left == ""
  {
  }

  lemma ThreeBehind(first: string, front: string, back: string)
    ensures first + ("\n" + (front + back)) == (first + ("\n" + front)) + back
  {
  }

  lemma FirstNewline(text: string)
    requires Find(text, "\n") >= 0
    ensures '\n' !in text[..Find(text, "\n")]
  {
    var i := Find(text, "\n");
    FindFirst(text, "\n");
    if j :| 0 <= j < i && text[j] == '\n' {
      assert text[j..j + 1] == "\n";
      assert At(text, "\n", j);
    }
  }

  lemma DrainLine(line: string, b: string)
    requires '\n' !in line
    ensures Drain(ScanLine, line + ("\n" + b)) == Joined(Drained([line], "", false), Drain(ScanLine, b))
  {
    var more := "\n" + b;
    assert more[0..1] == "\n";
    FindIs(more, "\n", 0);
    ScanBehind(line, more);
    hide ScanLine, Find;
    assert line + more[..0] == line && more[1..] == b;
    DrainCuts(ScanLine, line + more, line, b);
  }

  /** Lines, each with its own ending. */
  function Terminated(lines: seq<string>, ends: seq<string>): string
    requires |lines| == |ends|
  {
    if lines == [] then "" else lines[0] + (ends[0] + Terminated(lines[1..], ends[1..]))
  }

  predicate EndsIn(line: string, end: string) {
    '\n' !in line && (end == "\r\n" || (end == "\n" && !IsSuffix("\r", line)))
  }

  lemma EndedDrains(line: string, end: string, b: string)
    requires EndsIn(line, end)
    ensures var d, e := Drain(ScanLine, line + (end + b)), Drain(ScanLine, b);
            StripCrs(d.bodies) == [line] + StripCrs(e.bodies) && d.left == e.left
  {
    hide *;
    var cut := CutOf(line, end);
    EndsWithCr(line, end, b);
    DrainLine(cut, b);
    JoinedOne(cut, Drain(ScanLine, b));
    StripCrsCons(cut, Drain(ScanLine, b).bodies);
  }

  lemma JoinedOne(cut: string, d: Drained<char>)
    ensures Joined(Drained([cut], "", false), d).bodies == [cut] + d.bodies
    ensures Joined(Drained([cut], "", false), d).left == d.left
  {
  }

  /** What is in front of the newline. */
  lemma CutOf(line: string, end: string) returns (cut: string)
    requires EndsIn(line, end)
    ensures (end == "\r\n" || end == "\n") && cut == (if end == "\n" then line else line + "\r")
    ensures '\n' !in cut && StripCr(cut) == line
  {
    cut := if end == "\n" then line else line + "\r";
    EndsPlainly(line);
  }

  lemma EndsWithCr(line: string, end: string, b: string)
    requires end == "\r\n" || end == "\n"
    ensures line + (end + b) == (if end == "\n" then line else line + "\r") + ("\n" + b)
  {
    if end == "\r\n" {
      assert end + b == "\r" + ("\n" + b);
      Associative(line, "\r", "\n" + b);
    }
  }

  lemma {:induction false} TerminatedDrains(lines: seq<string>, ends: seq<string>)
    requires |lines| == |ends|
    requires forall i :: 0 <= i < |lines| ==> EndsIn(lines[i], ends[i])
    ensures var d := Drain(ScanLine, Terminated(lines, ends)); StripCrs(d.bodies) == lines && d.left == ""
    decreases |lines|
  {
    if lines != [] {
      hide Drain, ScanLine, StripCrs, EndsIn;
      TerminatedDrains(lines[1..], ends[1..]);
      EndedDrains(lines[0], ends[0], Terminated(lines[1..], ends[1..]));
      assert lines == [lines[0]] + lines[1..];
    }
  }

  lemma EndsPlainly(line: string)
    ensures !IsSuffix("\r", line) ==> line == "" || line[|line| - 1] != '\r'
    ensures (line + "\r")[..|line|] == line
  {
    if line != "" && line[|line| - 1] == '\r' {
      assert line[|line| - 1..] == "\r";
    }
  }

  /**
   Lines read the same whether they end in a newline or in a carriage return and a newline; and what is
   made of them is what their contents are, even a carriage return before that.
   */
  lemma EitherEnding<H, E>(parse: Parser<H, E>, lines: seq<string>, ends: seq<string>)
    requires |lines| == |ends|
    requires forall i :: 0 <= i < |lines| ==> EndsIn(lines[i], ends[i])
    ensures PushedAll(parse, Start(), [Terminated(lines, ends)]) == State("", FindingsIn(parse, lines))
  {
    TerminatedDrains(lines, ends);
    FindingsOf(parse, lines);
    hide Drain, StripCr, Terminated, FindingsIn, ConsumeAll;
    var text := Terminated(lines, ends);
    assert "" + text == text;
    PushedOne(parse, Start(), text);
  }

  /** What one more line does to the findings, in its own terms. */
  lemma NextLine<H, E>(parse: Parser<H, E>, lines: seq<string>, line: string)
    ensures var f, g := FindingsIn(parse, lines), FindingsIn(parse, lines + [line]);
            if !("MPDBG-READY " <= line) then g == f.(reported := f.reported + [line])
            else if f.found.Some? then g == f
            else
              match parse(line)
              case Ok(h) => g == f.(found := Some(h))
              case Err(e) =>
                g == Findings(None, if f.malformed.Some? then f.malformed else Some(e), f.reported + [line])
  {
    FindingsOf(parse, lines);
    FindingsOf(parse, lines + [line]);
    ConsumeAllAppend(parse, Findings(None, None, []), lines, [line]);
    ConsumeLast(parse, FindingsIn(parse, lines), line);
    hide FindingsIn, ConsumeAll;
    assert "MPDBG-READY " <= line <==> StartsWith(line, HANDSHAKE_PREFIX);
  }

  /** Of output without a newline the last 65536 characters are kept, and none of it is a line yet. */
  lemma RestKept<H, E>(parse: Parser<H, E>, text: string)
    requires '\n' !in text
    ensures PushedAll(parse, Start(), [text])
         == State(if |text| <= 65536 then text else text[|text| - 65536..], Findings(None, None, []))
  {
    PushedOne(parse, Start(), text);
    assert "" + text == text && text + "" == text;
    NewlineFree(text);
    Unterminated("", text);
    assert Find("", "\n") < 0;
    hide Drain, ScanLine;
    assert StripCrs([]) == [];
  }

  /** At the end of the stream what is kept of output without a newline is one line, as it is. */
  lemma RestFlushed<H, E>(parse: Parser<H, E>, text: string)
    requires text != "" && '\n' !in text
    ensures Flushed(parse, PushedAll(parse, Start(), [text]))
         == State("", FindingsIn(parse, [if |text| <= 65536 then text else text[|text| - 65536..]]))
  {
    RestKept(parse, text);
    var rest := if |text| <= 65536 then text else text[|text| - 65536..];
    FindingsOf(parse, [rest]);
    ConsumeLast(parse, Findings(None, None, []), rest);
    hide PushedAll, FindingsIn, ConsumeAll, Consume;
  }

  lemma {:induction false} ReportedAtLeastPlain<H, E>(parse: Parser<H, E>, lines: seq<string>)
    ensures |Reported(parse, lines)| >= |Plain(lines)|
  {
    hide Reported;
    if lines == [] {
      ReportedNone(parse);
    } else if Accepts(parse, lines[0]) {
      ReportedAccepted(parse, lines);
    } else {
      ReportedCons(parse, lines);
      ReportedAtLeastPlain(parse, lines[1..]);
    }
  }

  lemma DifferBehind(before: seq<string>, x: string, y: string, a: seq<string>, b: seq<string>)
    requires x != y
    ensures before + ([x] + a) != before + ([y] + b)
  {
    assert (before + ([x] + a))[|before|] == x && (before + ([y] + b))[|before|] == y;
  }

  /** A line is not dropped unless it is a ready line. */
  lemma ReportedOf<H, E>(parse: Parser<H, E>, f: Findings<H, E>, x: string, lines: seq<string>)
    ensures var r := ConsumeAll(parse, f, [x] + lines).reported;
            var rest := if f.found.Some? then Plain(lines) else Reported(parse, lines);
            (r == f.reported + ([x] + rest)) || (IsReady(x) && r == f.reported + Plain(lines))
    ensures !IsReady(x) ==>
              ConsumeAll(parse, f, [x] + lines).reported
              == f.reported + ([x] + if f.found.Some? then Plain(lines) else Reported(parse, lines))
  {
    var all := [x] + lines;
    assert all[1..] == lines;
    hide Reported;
    if f.found.Some? {
      AfterFound(parse, f, all);
      assert [] + Plain(lines) == Plain(lines);
    } else {
      FindingsFrom(parse, f, all);
      if Accepts(parse, x) { ReportedAccepted(parse, all); } else { ReportedCons(parse, all); }
    }
  }

  /** Two different lines, at most one of them a ready line, never lead to the same lines reported. */
  lemma DifferentReported<H, E>(parse: Parser<H, E>, f: Findings<H, E>, x: string, y: string, lines: seq<string>)
    requires x != y && !(IsReady(x) && IsReady(y))
    ensures ConsumeAll(parse, f, [x] + lines).reported != ConsumeAll(parse, f, [y] + lines).reported
  {
    ReportedOf(parse, f, x, lines);
    ReportedOf(parse, f, y, lines);
    ReportedAtLeastPlain(parse, lines);
    hide ConsumeAll, Reported, Plain, IsReady;
    var rest := if f.found.Some? then Plain(lines) else Reported(parse, lines);
    DifferBehind(f.reported, x, y, rest, rest);
  }

  lemma StripCrTail(line: string)
    requires |line| > 1
    ensures StripCr(line) != "" && StripCr(line[1..]) == StripCr(line)[1..]
  {
  }

  lemma TailNotReady(x: string)
    requires IsReady(x)
    ensures x != "" && !IsReady(x[1..])
  {
    assert x[0] == x[0..|HANDSHAKE_PREFIX|][0] && x[1] == x[0..|HANDSHAKE_PREFIX|][1];
    NotAt(x[1..], HANDSHAKE_PREFIX, 0);
  }

  lemma DrainAround(a: string, line: string, b: string)
    requires Drain(ScanLine, a).left == "" && '\n' !in line
    ensures var d, e, all := Drain(ScanLine, a), Drain(ScanLine, b), Drain(ScanLine, a + (line + ("\n" + b)));
            all.bodies == d.bodies + ([line] + e.bodies) && all.left == e.left
  {
    ScanLineIncremental();
    DrainLine(line, b);
    hide ScanLine;
    var more := line + ("\n" + b);
    DrainSplit(ScanLine, a, more);
    assert "" + more == more;
  }

  lemma StripCrsAround(before: seq<string>, line: string, behind: seq<string>)
    ensures StripCrs(before + ([line] + behind)) == StripCrs(before) + ([StripCr(line)] + StripCrs(behind))
  {
  }

  /** What one pass makes of a text with a given line in it. */
  lemma OnePassAround<H, E>(parse: Parser<H, E>, a: string, line: string, b: string)
    requires Drain(ScanLine, a).left == "" && '\n' !in line
    ensures var f, d := OnePass(parse, a).findings, Drain(ScanLine, b);
            OnePass(parse, a + (line + ("\n" + b)))
            == State(Cap(d.left), ConsumeAll(parse, f, [StripCr(line)] + StripCrs(d.bodies)))
  {
    DrainAround(a, line, b);
    hide ScanLine, ConsumeAll, Drain, Cap, StripCrs, StripCr;
    var d, e := Drain(ScanLine, a), Drain(ScanLine, b);
    StripCrsAround(d.bodies, line, e.bodies);
    ConsumeAllAppend(parse, Findings(None, None, []), StripCrs(d.bodies), [StripCr(line)] + StripCrs(e.bodies));
  }

  /** A push that ends a line begun in the buffer. */
  lemma PushEnding<H, E>(parse: Parser<H, E>, s: State<H, E>, end: string, b: string)
    requires '\n' !in s.buf + end
    ensures var d := Drain(ScanLine, b);
            Pushed(parse, s, end + ("\n" + b))
            == State(Cap(d.left), ConsumeAll(parse, s.findings, [StripCr(s.buf + end)] + StripCrs(d.bodies)))
  {
    Associative(s.buf, end, "\n" + b);
    DrainLine(s.buf + end, b);
    hide ScanLine, Drain;
    StripCrsCons(s.buf + end, Drain(ScanLine, b).bodies);
  }

  lemma PushBegun<H, E>(parse: Parser<H, E>, a: string, begun: string)
    requires Drain(ScanLine, a).left == "" && '\n' !in begun
    ensures PushedAll(parse, Start(), [a + begun]) == State(Cap(begun), OnePass(parse, a).findings)
  {
    ScanLineIncremental();
    NewlineFree(begun);
    assert Drain(ScanLine, begun) == Drained([], begun, false);
    hide ScanLine, ConsumeAll;
    DrainSplit(ScanLine, a, begun);
    assert "" + begun == begun && "" + (a + begun) == a + begun;
    assert Drain(ScanLine, a).bodies + [] == Drain(ScanLine, a).bodies;
    PushedOne(parse, Start(), a + begun);
  }

  lemma PushedOne<H, E>(parse: Parser<H, E>, s: State<H, E>, a: string)
    ensures PushedAll(parse, s, [a]) == Pushed(parse, s, a)
  {
    assert [a][1..] == [];
  }

  lemma PushedTwo<H, E>(parse: Parser<H, E>, s: State<H, E>, a: string, b: string)
    ensures PushedAll(parse, s, [a, b]) == Pushed(parse, PushedAll(parse, s, [a]), b)
  {
    assert [a, b][1..] == [b];
    PushedOne(parse, s, a);
    PushedOne(parse, Pushed(parse, s, a), b);
  }

  lemma CutLine(a: string, line: string, b: string, n: nat)
    requires n <= |line|
    ensures a + (line + ("\n" + b)) == Concat([a + line[..n], line[n..] + ("\n" + b)])
  {
    var p, q := line[..n], line[n..];
    ConcatTwo(a + p, q + ("\n" + b));
    assert line == p + q;
    Associative(p, q, "\n" + b);
    Associative(a, p, q + ("\n" + b));
  }

  lemma ConcatTwo(x: string, y: string)
    ensures Concat([x, y]) == x + y
  {
    assert [y][1..] == [] && Concat([y]) == y + Concat<char>([]) == y;
    assert [x, y][1..] == [y];
  }

  lemma CapBegun(line: string, m: nat)
    requires m + MAX_BUF_CHARS <= |line|
    ensures var n := m + MAX_BUF_CHARS; Cap(line[..n]) == line[m..n] && line[m..n] + line[n..] == line[m..]
  {
    var n := m + MAX_BUF_CHARS;
    var begun := line[..n];
    assert |begun| == n && Cap(begun) == begun[m..] == line[m..n];
    assert line[m..n] + line[n..] == line[m..];
  }

  /** Cut `m` characters behind the cap, a line loses its first `m` characters and is read without them. */
  lemma LongLineCut<H, E>(parse: Parser<H, E>, a: string, line: string, b: string, m: nat)
    requires Drain(ScanLine, a).left == "" && '\n' !in line && m + MAX_BUF_CHARS <= |line|
    ensures var n := m + MAX_BUF_CHARS;
            PushedAll(parse, Start(), [a + line[..n], line[n..] + ("\n" + b)])
            == State(Cap(Drain(ScanLine, b).left),
                     ConsumeAll(parse, OnePass(parse, a).findings, [StripCr(line[m..])] + StripCrs(Drain(ScanLine, b).bodies)))
  {
    var n := m + MAX_BUF_CHARS;
    var s := State(line[m..n], OnePass(parse, a).findings);
    hide Cap, Drain, ScanLine, OnePass, Pushed, PushedAll, ConsumeAll, StripCr, StripCrs;
    CapBegun(line, m);
    PushBegun(parse, a, line[..n]);
    PushedTwo(parse, Start(), a + line[..n], line[n..] + ("\n" + b));
    PushEnding(parse, s, line[n..], b);
  }

  /** A terminated line over the cap: cut in the right place, the text is read differently. */
  lemma LongLineDependsOnChunks<H, E>(parse: Parser<H, E>, text: string, i: nat) returns (chunks: seq<string>)
    requires i < |Drain(ScanLine, text).bodies| && |Drain(ScanLine, text).bodies[i]| > MAX_BUF_CHARS
    ensures Concat(chunks) == text
    ensures PushedAll(parse, Start(), chunks).findings.reported != OnePass(parse, text).findings.reported
  {
    hide *;
    var a, line, b := CutAt(text, i);
    var n := MaxPlusOne(line);
    chunks := [a + line[..n], line[n..] + ("\n" + b)];
    CutLine(a, line, b, n);
    OnePassAround(parse, a, line, b);
    LongLineCut(parse, a, line, b, 1);
    var x := StripCr(line);
    StripCrTail(line);
    NotBothReady(x);
    DifferentReported(parse, OnePass(parse, a).findings, x, x[1..], StripCrs(Drain(ScanLine, b).bodies));
  }

  lemma MaxPlusOne(line: string) returns (n: nat)
    requires |line| > MAX_BUF_CHARS
    ensures n == MAX_BUF_CHARS + 1 && 1 < n <= |line|
  {
    n := MAX_BUF_CHARS + 1;
  }

  lemma NotBothReady(x: string)
    requires x != ""
    ensures x != x[1..] && !(IsReady(x) && IsReady(x[1..]))
  {
    if IsReady(x) { TailNotReady(x); }
  }

  /** Cutting a text into chunks changes nothing, whatever the chunks, exactly when no terminated line is over the cap. */
  lemma ChunkingIrrelevantExactly<H, E>(parse: Parser<H, E>, text: string)
    ensures (forall chunks :: Concat(chunks) == text ==> PushedAll(parse, Start(), chunks) == OnePass(parse, text))
       <==> LinesFit(text)
  {
    if LinesFit(text) {
      forall chunks | Concat(chunks) == text
        ensures PushedAll(parse, Start(), chunks) == OnePass(parse, text)
      {
        PushFromStart(parse, chunks);
      }
    } else {
      var i :| 0 <= i < |Drain(ScanLine, text).bodies| && |Drain(ScanLine, text).bodies[i]| > MAX_BUF_CHARS;
      var chunks := LongLineDependsOnChunks(parse, text, i);
    }
  }

  // ----- what long lines do to the handshake -----

  /** However the line is cut, what the scanner reads of it is no ready line, unless all of it is read. */
  predicate IsUncut(line: string) {
    |line| <= MAX_BUF_CHARS || forall m :: 0 <= m <= |line| - MAX_BUF_CHARS ==> !At(line, HANDSHAKE_PREFIX, m)
  }

  /** The terminated lines of `text` up to number `k` are of that kind. */
  ghost predicate UncutUpTo(text: string, k: nat) {
    var lines := Drain(ScanLine, text).bodies;
    forall i :: 0 <= i < |lines| && i <= k ==> IsUncut(lines[i])
  }

  /** The line that the chunk ends is. */
  ghost predicate UncutNext(seen: string, chunk: string) {
    var i := Find(chunk, "\n");
    i >= 0 ==> IsUncut(Drain(ScanLine, seen).left + chunk[..i])
  }

  lemma NextIsUncut(seen: string, chunk: string, later: string, k: nat)
    requires UncutUpTo(seen + (chunk + later), k) && |Drain(ScanLine, seen).bodies| <= k
    ensures UncutNext(seen, chunk)
  {
    var i, d := Find(chunk, "\n"), Drain(ScanLine, seen);
    if i >= 0 {
      FindFirst(chunk, "\n");
      FirstNewline(chunk);
      CutChunk(chunk, later, i);
      LineEnded(seen, chunk[..i], chunk[i + 1..] + later);
    }
  }

  lemma CutChunk(chunk: string, later: string, i: nat)
    requires At(chunk, "\n", i)
    ensures chunk + later == chunk[..i] + ("\n" + (chunk[i + 1..] + later))
  {
    assert chunk == chunk[..i] + ("\n" + chunk[i + 1..]);
  }

  lemma LineEnded(seen: string, end: string, b: string)
    requires '\n' !in end
    ensures var d, all := Drain(ScanLine, seen), Drain(ScanLine, seen + (end + ("\n" + b)));
            |all.bodies| > |d.bodies| && all.bodies[|d.bodies|] == d.left + end
  {
    var u := Drain(ScanLine, seen).left;
    LeftHasNoNewline(seen);
    NewlineFree(u);
    BodiesSplit(seen, end + ("\n" + b));
    Associative(u, end, "\n" + b);
    DrainLine(u + end, b);
    hide Drain, ScanLine, Find;
  }

  /** A reading with the same handshake and the same failure, whatever else was reported. */
  ghost predicate SameOutcome<H, E>(f: Findings<H, E>, g: Findings<H, E>) {
    f.found == g.found && f.malformed == g.malformed
  }

  /** The scanner holds what it should, and has found what one pass would. */
  ghost predicate ReadsLike<H, E>(parse: Parser<H, E>, s: State<H, E>, seen: string) {
    s.buf == Cap(Drain(ScanLine, seen).left) && SameOutcome(s.findings, OnePass(parse, seen).findings)
  }

  lemma {:induction false} SameConsumed<H, E>(parse: Parser<H, E>, f: Findings<H, E>, g: Findings<H, E>, lines: seq<string>)
    requires SameOutcome(f, g)
    ensures SameOutcome(ConsumeAll(parse, f, lines), ConsumeAll(parse, g, lines))
    decreases |lines|
  {
    if lines != [] {
      SameConsumed(parse, Consume(parse, f, lines[0]), Consume(parse, g, lines[0]), lines[1..]);
    }
  }

  lemma PlainConsumed<H, E>(parse: Parser<H, E>, f: Findings<H, E>, g: Findings<H, E>, x: string, y: string, lines: seq<string>)
    requires SameOutcome(f, g) && (x == y || (!IsReady(x) && !IsReady(y)))
    ensures SameOutcome(ConsumeAll(parse, f, [x] + lines), ConsumeAll(parse, g, [y] + lines))
  {
    assert ([x] + lines)[1..] == lines && ([y] + lines)[1..] == lines;
    SameConsumed(parse, Consume(parse, f, x), Consume(parse, g, y), lines);
  }

  /** What is read of a line that was begun before a chunk: all of it, or an end of it that is no ready line, nor is it. */
  lemma UncutEnd(u: string, end: string)
    requires IsUncut(u + end)
    ensures var x, y := StripCr(Cap(u) + end), StripCr(u + end); x == y || (!IsReady(x) && !IsReady(y))
  {
    if |u| > MAX_BUF_CHARS {
      var line, m := u + end, |u| - MAX_BUF_CHARS;
      assert line[m..] == Cap(u) + end;
      EndNotReady(line, m);
      EndNotReady(line, 0);
      assert line[0..] == line;
    }
  }

  lemma EndNotReady(line: string, m: nat)
    requires m <= |line| && !At(line, HANDSHAKE_PREFIX, m)
    ensures !IsReady(StripCr(line[m..]))
  {
    var n, t := |HANDSHAKE_PREFIX|, line[m..];
    assert |StripCr(t)| >= n ==> StripCr(t)[0..n] == t[0..n];
    assert |t| >= n ==> t[0..n] == line[m..m + n];
  }

  lemma PushLike<H, E>(parse: Parser<H, E>, s: State<H, E>, seen: string, chunk: string)
    requires ReadsLike(parse, s, seen) && UncutNext(seen, chunk)
    ensures ReadsLike(parse, Pushed(parse, s, chunk), seen + chunk)
  {
    var u, i := Drain(ScanLine, seen).left, Find(chunk, "\n");
    LeftHasNoNewline(seen);
    NewlineFree(u);
    if i < 0 {
      assert '\n' !in Cap(u);
      Unterminated(u, chunk);
      Unterminated(Cap(u), chunk);
      CapOnce(u, chunk);
      PushedNothing(parse, s, seen, chunk);
    } else {
      var end, b := chunk[..i], chunk[i + 1..];
      FindFirst(chunk, "\n");
      FirstNewline(chunk);
      assert chunk == end + ("\n" + b);
      PushedLine(parse, s, seen, u, end, b);
    }
  }

  lemma PushedNothing<H, E>(parse: Parser<H, E>, s: State<H, E>, seen: string, chunk: string)
    requires ReadsLike(parse, s, seen)
    requires var u := Drain(ScanLine, seen).left;
             && Drain(ScanLine, Cap(u) + chunk) == Drained([], Cap(u) + chunk, false)
             && Drain(ScanLine, u + chunk) == Drained([], u + chunk, false)
             && Cap(Cap(u) + chunk) == Cap(u + chunk)
    ensures ReadsLike(parse, Pushed(parse, s, chunk), seen + chunk)
  {
    ScanLineIncremental();
    hide ScanLine, Cap, ConsumeAll, SameOutcome;
    DrainSplit(ScanLine, seen, chunk);
    var d := Drain(ScanLine, seen);
    hide Drain;
    assert d.bodies + [] == d.bodies;
    assert ConsumeAll(parse, s.findings, StripCrs([])) == s.findings by { ConsumeNone(parse, s.findings); }
  }

  lemma ConsumeNone<H, E>(parse: Parser<H, E>, f: Findings<H, E>)
    ensures ConsumeAll(parse, f, StripCrs([])) == f
  {
  }

  lemma PushedLine<H, E>(parse: Parser<H, E>, s: State<H, E>, seen: string, u: string, end: string, b: string)
    requires ReadsLike(parse, s, seen) && u == Drain(ScanLine, seen).left && '\n' !in u + end && IsUncut(u + end)
    ensures ReadsLike(parse, Pushed(parse, s, end + ("\n" + b)), seen + (end + ("\n" + b)))
  {
    UncutEnd(u, end);
    assert '\n' !in Cap(u) + end;
    hide IsUncut, IsReady, StripCr, Cap, ScanLine, Drain, ConsumeAll, SameOutcome;
    PushEnding(parse, s, end, b);
    OnePassEnding(parse, seen, u, end, b);
    var lines := StripCrs(Drain(ScanLine, b).bodies);
    PlainConsumed(parse, s.findings, OnePass(parse, seen).findings, StripCr(Cap(u) + end), StripCr(u + end), lines);
  }

  lemma OnePassEnding<H, E>(parse: Parser<H, E>, seen: string, u: string, end: string, b: string)
    requires u == Drain(ScanLine, seen).left && '\n' !in u + end
    ensures var d, all := Drain(ScanLine, b), seen + (end + ("\n" + b));
            && Drain(ScanLine, all).left == d.left
            && OnePass(parse, all).findings
               == ConsumeAll(parse, OnePass(parse, seen).findings, [StripCr(u + end)] + StripCrs(d.bodies))
  {
    ScanLineIncremental();
    hide ScanLine, ConsumeAll, Drain, StripCr, StripCrs;
    var more, before, d := end + ("\n" + b), Drain(ScanLine, seen), Drain(ScanLine, b);
    Associative(u, end, "\n" + b);
    DrainLine(u + end, b);
    DrainSplit(ScanLine, seen, more);
    StripCrsAround(before.bodies, u + end, d.bodies);
    ConsumeAllAppend(parse, Findings(None, None, []), StripCrs(before.bodies), [StripCr(u + end)] + StripCrs(d.bodies));
  }

  /** The flush finds the same. */
  lemma FlushLike<H, E>(parse: Parser<H, E>, s: State<H, E>, seen: string)
    requires ReadsLike(parse, s, seen)
    ensures SameOutcome(Flushed(parse, s).findings, FindingsIn(parse, AllLines(seen)))
  {
    FlushedOnePass(parse, seen);
  }

  // ----- the buffer, whatever the lines are -----

  predicate IsSuffix(a: string, b: string) {
    |a| <= |b| && b[|b| - |a|..] == a
  }

  lemma DrainBehind(b: string, more: string)
    requires '\n' !in b
    ensures Drain(ScanLine, b + more).left
         == if Find(more, "\n") < 0 then b + more else Drain(ScanLine, more[Find(more, "\n") + 1..]).left
  {
    ScanBehind(b, more);
    var i := Find(more, "\n");
    hide *;
    if i >= 0 {
      DrainCuts(ScanLine, b + more, b + more[..i], more[i + 1..]);
      JoinedLeft(Drained([b + more[..i]], [], false), Drain(ScanLine, more[i + 1..]));
    } else {
      DrainWaits(ScanLine, b + more);
    }
  }

  lemma JoinedLeft<T>(d: Drained<T>, e: Drained<T>)
    ensures Joined(d, e).left == e.left
  {
  }

  lemma ScanBehind(b: string, more: string)
    requires '\n' !in b
    ensures var i := Find(more, "\n");
            if i < 0 then ScanLine(b + more).NeedMore?
            else i < |more| && ScanLine(b + more) == Frame(b + more[..i], more[i + 1..]) && |more[i + 1..]| < |b + more|
  {
    FindBehind(b, more);
    hide Find;
    var i := Find(more, "\n");
    assert i >= 0 ==> (b + more)[|b| + i + 1..] == more[i + 1..] && (b + more)[..|b| + i] == b + more[..i];
  }

  /** A buffer that holds the end of an unterminated line goes on holding the end of it. */
  lemma SuffixKeeps(b: string, u: string, more: string)
    requires '\n' !in u && IsSuffix(b, u)
    ensures IsSuffix(Drain(ScanLine, b + more).left, Drain(ScanLine, u + more).left)
  {
    DrainBehind(b, more);
    DrainBehind(u, more);
    hide *;
    SuffixBehind(b, u, more);
    SuffixRefl(Drain(ScanLine, u + more).left);
  }

  lemma SuffixRefl(a: string)
    ensures IsSuffix(a, a)
  {
  }

  lemma SuffixBehind(b: string, u: string, more: string)
    requires IsSuffix(b, u)
    ensures IsSuffix(b + more, u + more)
  {
    assert (u + more)[|u| - |b|..] == u[|u| - |b|..] + more;
  }

  lemma SuffixPushed<H, E>(parse: Parser<H, E>, s: State<H, E>, seen: string, chunk: string)
    requires IsSuffix(s.buf, Drain(ScanLine, seen).left)
    ensures var t := Pushed(parse, s, chunk);
            |t.buf| <= MAX_BUF_CHARS && IsSuffix(t.buf, Drain(ScanLine, seen + chunk).left)
  {
    LeftHasNoNewline(seen);
    var u := Drain(ScanLine, seen).left;
    NewlineFree(u);
    ScanLineIncremental();
    hide ScanLine, Find;
    SuffixKeeps(s.buf, u, chunk);
    DrainSplit(ScanLine, seen, chunk);
  }

  /**
   Whatever the lines are: the buffer never outgrows the cap, holds no newline, and is the end of
   the text behind the last newline.
   */
  lemma {:induction false} BufferBounded<H, E>(parse: Parser<H, E>, s: State<H, E>, seen: string, chunks: seq<string>)
    requires |s.buf| <= MAX_BUF_CHARS && IsSuffix(s.buf, Drain(ScanLine, seen).left)
    ensures var t := PushedAll(parse, s, chunks);
            |t.buf| <= MAX_BUF_CHARS && '\n' !in t.buf && IsSuffix(t.buf, Drain(ScanLine, seen + Concat(chunks)).left)
    decreases |chunks|
  {
    LeftHasNoNewline(seen);
    NewlineFree(Drain(ScanLine, seen).left);
    hide Drain, ScanLine, Find, Pushed;
    if chunks == [] {
      assert seen + Concat(chunks) == seen;
    } else {
      SuffixPushed(parse, s, seen, chunks[0]);
      Associative(seen, chunks[0], Concat(chunks[1..]));
      BufferBounded(parse, Pushed(parse, s, chunks[0]), seen + chunks[0], chunks[1..]);
    }
  }
}
