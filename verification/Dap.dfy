/**
 The Debug Adapter Protocol's `Content-Length` framing as the test client speaks it: the printer
 `DAPClient.Send`, and the read loop of `ThreadedServer`, which parses incrementally.
 */
module Dap {
  import opened Wrappers
  import opened Text
  import opened Framing

  const SEPARATOR := "\r\n\r\n"
  const LENGTH_FIELD := "content-length:"

  /** The text of a message on the wire (Base Protocol of the Debug Adapter Protocol). */
  function FrameOf(content: string): string {
    "Content-Length: " + Decimal(|content|) + SEPARATOR + content
  }

  /** The last length the header lines give, 0 when none does; None when one is not a number. */
  function LengthOf(lines: seq<string>, length: int): Option<int> {
    if lines == [] then Some(length)
    else if StartsWith(Lower(lines[0]), LENGTH_FIELD) then
      match ParseInt(Strip(lines[0][Find(lines[0], ":") + 1..]))
      case None => None
      case Some(n) => LengthOf(lines[1..], n)
    else LengthOf(lines[1..], length)
  }

  /** One look at the buffer. A negative length is as unreadable as one that is not a number. */
  function ScanFrame(buf: string): Scan<char> {
    var sep := Find(buf, SEPARATOR);
    if sep < 0 then NeedMore
    else
      match LengthOf(Split(buf[..sep], "\r\n"), 0)
      case None => Broken
      case Some(length) =>
        if length < 0 then Broken
        else if |buf| < sep + 4 + length then NeedMore
        else Frame(buf[sep + 4..sep + 4 + length], buf[sep + 4 + length..])
  }

  lemma ScanFrameIncremental()
    ensures Incremental(ScanFrame)
  {
    forall a: string, b: string
      ensures Stable(ScanFrame, a, b)
    {
      var sep := Find(a, SEPARATOR);
      if sep >= 0 {
        FindStable(a, b, SEPARATOR);
        assert (a + b)[..sep] == a[..sep];
        if ScanFrame(a).Frame? {
          var length := LengthOf(Split(a[..sep], "\r\n"), 0).value;
          assert (a + b)[sep + 4..sep + 4 + length] == a[sep + 4..sep + 4 + length];
          assert (a + b)[sep + 4 + length..] == a[sep + 4 + length..] + b;
        }
      }
    }
  }

  lemma ScanShrinks(buf: string)
    ensures ScanFrame(buf).Frame? ==> |ScanFrame(buf).rest| + 4 <= |buf|
  {
  }

  /** The header of a printed frame, without its separator. */
  function HeaderOf(n: nat): string {
    "Content-Length: " + Decimal(n)
  }

  lemma HeaderHasNoCr(n: nat)
    ensures forall i :: 0 <= i < |HeaderOf(n)| ==> HeaderOf(n)[i] != '\r'
  {
    forall i | 0 <= i < |HeaderOf(n)|
      ensures HeaderOf(n)[i] != '\r'
    {
      if i >= 16 { assert HeaderOf(n)[i] == Decimal(n)[i - 16]; }
    }
  }

  lemma NoCrNoBreak(s: string, pat: string)
    requires pat != "" && pat[0] == '\r'
    requires forall i :: 0 <= i < |s| ==> s[i] != '\r'
    ensures Find(s, pat) == -1
  {
    FindFirst(s, pat);
  }

  lemma ColonOfHeader(n: nat)
    ensures Find(HeaderOf(n), ":") == 14
  {
    var name := "Content-Length";
    assert HeaderOf(n)[14..15] == ":";
    forall j | 0 <= j < 14
      ensures !At(HeaderOf(n), ":", j)
    {
      assert HeaderOf(n)[j] == name[j];
      NotAt(HeaderOf(n), ":", j);
    }
    FindIs(HeaderOf(n), ":", 14);
  }

  lemma LowerOfHeader(n: nat)
    ensures StartsWith(Lower(HeaderOf(n)), LENGTH_FIELD)
  {
    assert forall i :: 0 <= i < 15 ==> LowerChar(HeaderOf(n)[i]) == LENGTH_FIELD[i];
    assert Lower(HeaderOf(n))[0..15] == LENGTH_FIELD;
  }

  lemma StripOfHeader(n: nat)
    ensures Strip(HeaderOf(n)[15..]) == Decimal(n)
  {
    var value := HeaderOf(n)[15..];
    assert value == [' '] + Decimal(n);
    assert value[1..] == Decimal(n);
    assert IsDigit(Decimal(n)[0]) && IsDigit(Decimal(n)[|Decimal(n)| - 1]);
    assert Strip(Decimal(n)) == Decimal(n);
  }

  lemma HeaderReadsBack(n: nat)
    ensures LengthOf(Split(HeaderOf(n), "\r\n"), 0) == Some(n as int)
  {
    HeaderHasNoCr(n);
    NoCrNoBreak(HeaderOf(n), "\r\n");
    assert Split(HeaderOf(n), "\r\n") == [HeaderOf(n)];
    LowerOfHeader(n);
    ColonOfHeader(n);
    StripOfHeader(n);
    ParseIntDecimal(n);
    assert LengthOf([], n) == Some(n as int);
  }

  /** The separator of a printed frame is found where the header ends, and not while it is incomplete. */
  lemma SeparatorOfFrame(content: string, rest: string)
    ensures Find(FrameOf(content) + rest, SEPARATOR) == |HeaderOf(|content|)|
  {
    var header := HeaderOf(|content|);
    var text := FrameOf(content) + rest;
    HeaderHasNoCr(|content|);
    assert text == header + SEPARATOR + content + rest;
    assert text[|header|..|header| + 4] == SEPARATOR;
    forall j | 0 <= j < |header|
      ensures !At(text, SEPARATOR, j)
    {
      assert text[j] == header[j];
      NotAt(text, SEPARATOR, j);
    }
    FindIs(text, SEPARATOR, |header|);
  }

  lemma FrameScans(content: string, rest: string)
    ensures ScanFrame(FrameOf(content) + rest) == Frame(content, rest)
  {
    var header := HeaderOf(|content|);
    var text := FrameOf(content) + rest;
    SeparatorOfFrame(content, rest);
    assert text[..|header|] == header;
    HeaderReadsBack(|content|);
    var start := |header| + 4;
    assert text == (header + SEPARATOR) + content + rest;
    assert text[start..start + |content|] == content;
    assert text[start + |content|..] == rest;
  }

  lemma PartialFrameScans(content: string, k: nat)
    requires k < |FrameOf(content)|
    ensures ScanFrame(FrameOf(content)[..k]).NeedMore?
  {
    var header := HeaderOf(|content|);
    var part := FrameOf(content)[..k];
    SeparatorOfFrame(content, "");
    assert FrameOf(content) + "" == FrameOf(content);
    var rest := FrameOf(content)[k..];
    assert part + rest == FrameOf(content);
    if Find(part, SEPARATOR) >= 0 {
      FindStable(part, rest, SEPARATOR);
      assert part[..|header|] == header;
      HeaderReadsBack(|content|);
    }
  }

  predicate AnyContent(content: string) { true }

  lemma FramesAgree()
    ensures Agree(ScanFrame, FrameOf, AnyContent)
  {
    forall content: string, rest: string
      ensures CutsOff(ScanFrame, FrameOf, content, rest)
    {
      FrameScans(content, rest);
    }
    forall content: string, k: nat
      ensures WaitsAt(ScanFrame, FrameOf, content, k)
    {
      if k < |FrameOf(content)| { PartialFrameScans(content, k); }
    }
    assert Find("", SEPARATOR) == -1;
  }

  /** What `json.loads` makes of a body: nothing, a message object, or some other JSON value. */
  datatype Decoded<M> = NotJson | Object(message: M) | OtherJson

  datatype Delivered<M> = Delivered(messages: seq<M>, ended: bool)

  /** The messages handed on: bodies that are not JSON drop out, anything but an object ends the reader. */
  function Deliver<M>(loads: string -> Decoded<M>, bodies: seq<string>): Delivered<M> {
    if bodies == [] then Delivered([], false)
    else
      match loads(bodies[0])
      case NotJson => Deliver(loads, bodies[1..])
      case Object(m) =>
        var d := Deliver(loads, bodies[1..]);
        Delivered([m] + d.messages, d.ended)
      case OtherJson => Delivered([], true)
  }

  lemma {:induction false} DeliverAppend<M>(loads: string -> Decoded<M>, a: seq<string>, b: seq<string>)
    ensures var d, e := Deliver(loads, a), Deliver(loads, b);
            Deliver(loads, a + b) == if d.ended then d else Delivered(d.messages + e.messages, e.ended)
  {
    if a == [] {
      assert a + b == b;
    } else {
      assert (a + b)[1..] == a[1..] + b;
      DeliverAppend(loads, a[1..], b);
    }
  }

  /** What reading `input` hands on, whether it kills the reader, and what it leaves buffered. */
  datatype Reading<M> = Reading(messages: seq<M>, died: bool, left: string)

  ghost function Read<M>(loads: string -> Decoded<M>, input: string): Reading<M> {
    var d := Drain(ScanFrame, input);
    var m := Deliver(loads, d.bodies);
    Reading(m.messages, d.broken || m.ended, d.left)
  }

  /** What a call of `recv` can come back with. */
  datatype Recv = Data(bytes: string) | TimedOut | Failed | StopRequested

  predicate EndsInput(r: Recv) {
    r.Failed? || r.StopRequested? || (r.Data? && r.bytes == "")
  }

  /** The bytes received before the loop is told to stop, the connection fails or the peer closes. */
  function Input(recvs: seq<Recv>): string {
    if recvs == [] || EndsInput(recvs[0]) then ""
    else (if recvs[0].Data? then recvs[0].bytes else "") + Input(recvs[1..])
  }

  /** The bytes of every message sent, in the order of the `Send` calls. */
  function Sent<M>(dumps: M -> string, messages: seq<M>): seq<string> {
    seq(|messages|, i requires 0 <= i < |messages| => dumps(messages[i]))
  }

  lemma SentAppend<M>(dumps: M -> string, sent: seq<M>, message: M)
    ensures Wire(FrameOf, Sent(dumps, sent + [message]))
         == Wire(FrameOf, Sent(dumps, sent)) + FrameOf(dumps(message))
  {
    assert Sent(dumps, sent + [message]) == Sent(dumps, sent) + [dumps(message)];
    WireAppend(FrameOf, Sent(dumps, sent), dumps(message));
  }

  class DAPClient<M> {
    const dumps: M -> string
    var seqNumber: nat
    var wire: string
    ghost var sent: seq<M>

    /** The wire carries one whole frame for each message sent, in the order the lock was taken. */
    ghost predicate Valid()
      reads this
    {
      wire == Wire(FrameOf, Sent(dumps, sent))
    }

    constructor (dumps: M -> string)
      ensures Valid() && this.dumps == dumps && seqNumber == 0 && sent == []
    {
      this.dumps := dumps;
      seqNumber := 0;
      wire := "";
      sent := [];
    }

    /** `sendall` of header and content while the lock is held: one frame, uninterrupted. */
    method Send(message: M)
      requires Valid()
      modifies this`wire, this`sent
      ensures Valid() && sent == old(sent) + [message]
      ensures wire == old(wire) + FrameOf(dumps(message))
    {
      var content := dumps(message);
      var header := "Content-Length: " + Decimal(|content|) + "\r\n\r\n";
      assert header + content == FrameOf(content);
      SentAppend(dumps, sent, message);
      hide FrameOf, Sent;
      wire := wire + (header + content);
      sent := sent + [message];
    }

    /** `build` makes the request with a given sequence number. */
    method SendRequest(build: nat -> M) returns (seqUsed: nat)
      requires Valid()
      modifies this
      ensures Valid() && sent == old(sent) + [build(seqUsed)]
      ensures seqUsed == seqNumber == old(seqNumber) + 1
    {
      seqNumber := seqNumber + 1;
      Send(build(seqNumber));
      seqUsed := seqNumber;
    }
  }

  class ThreadedServer<M(!new)> {
    const loads: string -> Decoded<M>
    var running: bool
    var received: seq<M>

    constructor (loads: string -> Decoded<M>)
      ensures this.loads == loads && running && received == []
    {
      this.loads := loads;
      running := true;
      received := [];
    }

    /**
     The inner loop: cut complete frames off the buffer and hand their messages on. It ends early,
     with `died`, on a header it cannot read and on a body that is JSON but not an object.
     */
    method CutFrames(buffered: string) returns (left: string, died: bool)
      modifies this`received
      ensures var r := Read(loads, buffered);
              received == old(received) + r.messages && died == r.died && (!died ==> left == r.left)
    {
      hide ScanFrame;
      var buf := buffered;
      while true
        invariant var d, d0 := Drain(ScanFrame, buf), Drain(ScanFrame, buffered);
                  d.left == d0.left && d.broken == d0.broken
                  && received + Deliver(loads, d.bodies).messages == old(received) + Deliver(loads, d0.bodies).messages
                  && Deliver(loads, d.bodies).ended == Deliver(loads, d0.bodies).ended
        decreases |buf|
      {
        ScanShrinks(buf);
        hide ScanFrame;
        match ScanFrame(buf) {
          case NeedMore => return buf, false;
          case Broken => return buf, true;
          case Frame(body, rest) =>
            buf := rest;
            match loads(body) {
              case NotJson =>
              case Object(m) => received := received + [m];
              case OtherJson => return buf, true;
            }
        }
      }
    }

    /**
     The background thread, over the outcomes of its `recv` calls. When it dies it leaves `running`
     set; otherwise `left` is what stays in the buffer.
     */
    method ReadLoop(recvs: seq<Recv>) returns (left: string, died: bool)
      modifies this
      ensures var r := Read(loads, Input(recvs));
              received == old(received) + r.messages && died == r.died && (!died ==> left == r.left)
      ensures running == (died && old(running))
    {
      AheadStart(loads, recvs);
      hide Read, Input, Ahead;
      var buf := "";
      var i := 0;
      while i < |recvs| && !EndsInput(recvs[i])
        invariant 0 <= i <= |recvs|
        invariant Read(loads, buf) == Reading([], false, buf)
        invariant Prefixed(received, Ahead(loads, buf, recvs, i)) == Prefixed(old(received), Read(loads, Input(recvs)))
        invariant running == old(running)
      {
        if recvs[i].Data? {
          AheadData(loads, buf, recvs, i, received);
          left, died := CutFrames(buf + recvs[i].bytes);
          if died {
            return;
          }
          buf := left;
        } else {
          AheadNothing(loads, buf, recvs, i);
        }
        i := i + 1;
      }
      AheadEnd(loads, buf, recvs, i);
      running := false;
      return buf, false;
    }
  }

  /** What is still to come of a run whose buffer is `buf` before its `i`th `recv`. */
  ghost function Ahead<M>(loads: string -> Decoded<M>, buf: string, recvs: seq<Recv>, i: nat): Reading<M>
    requires i <= |recvs|
  {
    Read(loads, buf + Input(recvs[i..]))
  }

  function Prefixed<M>(messages: seq<M>, r: Reading<M>): Reading<M> {
    r.(messages := messages + r.messages)
  }

  lemma AheadStart<M>(loads: string -> Decoded<M>, recvs: seq<Recv>)
    ensures Ahead(loads, "", recvs, 0) == Read(loads, Input(recvs))
    ensures Read(loads, "") == Reading([], false, "")
  {
    assert recvs[0..] == recvs && "" + Input(recvs) == Input(recvs);
  }

  lemma AheadEnd<M>(loads: string -> Decoded<M>, buf: string, recvs: seq<Recv>, i: nat)
    requires i <= |recvs| && (i < |recvs| ==> EndsInput(recvs[i]))
    ensures Ahead(loads, buf, recvs, i) == Read(loads, buf)
  {
    assert buf + Input(recvs[i..]) == buf;
  }

  lemma AheadNothing<M>(loads: string -> Decoded<M>, buf: string, recvs: seq<Recv>, i: nat)
    requires i < |recvs| && !EndsInput(recvs[i]) && !recvs[i].Data?
    ensures Ahead(loads, buf, recvs, i) == Ahead(loads, buf, recvs, i + 1)
  {
    assert recvs[i..][1..] == recvs[i + 1..];
    assert Input(recvs[i..]) == Input(recvs[i + 1..]);
  }

  lemma AheadData<M>(loads: string -> Decoded<M>, buf: string, recvs: seq<Recv>, i: nat, received: seq<M>)
    requires i < |recvs| && !EndsInput(recvs[i]) && recvs[i].Data?
    ensures var r := Read(loads, buf + recvs[i].bytes);
            var ahead := Prefixed(received, Ahead(loads, buf, recvs, i));
            if r.died then ahead.messages == received + r.messages && ahead.died
            else
              ahead == Prefixed(received + r.messages, Ahead(loads, r.left, recvs, i + 1))
              && Read(loads, r.left) == Reading([], false, r.left)
  {
    var more, later := buf + recvs[i].bytes, Input(recvs[i + 1..]);
    assert recvs[i..][1..] == recvs[i + 1..];
    Associative(buf, recvs[i].bytes, later);
    hide Read, Input;
    ReadSplit(loads, more, later);
    var r := Read(loads, more);
    Associative(received, r.messages, Read(loads, r.left + later).messages);
  }

  /**
   Reading a stream in two pieces: a reader still alive after the first goes on from what it
   buffered, and a dead one hands on nothing more.
   */
  lemma ReadSplit<M>(loads: string -> Decoded<M>, a: string, b: string)
    ensures var r, t := Read(loads, a), Read(loads, a + b);
            if r.died then t.messages == r.messages && t.died
            else
              var e := Read(loads, r.left + b);
              t == Reading(r.messages + e.messages, e.died, e.left)
              && Read(loads, r.left) == Reading([], false, r.left)
  {
    var d := Drain(ScanFrame, a);
    ScanFrameIncremental();
    hide ScanFrame;
    DrainSplit(ScanFrame, a, b);
    DrainSettles(ScanFrame, a);
    if d.broken {
      BrokenStays(ScanFrame, a, b);
    }
    DeliverAppend(loads, d.bodies, Drain(ScanFrame, d.left + b).bodies);
  }

  lemma {:induction false} DeliverSent<M>(dumps: M -> string, loads: string -> Decoded<M>, messages: seq<M>)
    requires forall i :: 0 <= i < |messages| ==> loads(dumps(messages[i])) == Object(messages[i])
    ensures Deliver(loads, Sent(dumps, messages)) == Delivered(messages, false)
  {
    if messages != [] {
      assert Sent(dumps, messages)[1..] == Sent(dumps, messages[1..]);
      DeliverSent(dumps, loads, messages[1..]);
    }
  }

  /**
   Sending and reading: when the first `n` bytes of what `Send` put on the wire have come in, in
   whatever chunks and with whatever timeouts between them, exactly the messages that came in whole
   have been handed on, in order, and what is buffered is the start of the next frame.
   */
  lemma SendThenRead<M>(dumps: M -> string, loads: string -> Decoded<M>, messages: seq<M>, n: nat, recvs: seq<Recv>)
    requires forall i :: 0 <= i < |messages| ==> loads(dumps(messages[i])) == Object(messages[i])
    requires var wire := Wire(FrameOf, Sent(dumps, messages)); n <= |wire| && Input(recvs) == wire[..n]
    ensures var k := Arrived(FrameOf, Sent(dumps, messages), n);
            var r := Read(loads, Input(recvs));
            k <= |messages| && !r.died && r.messages == messages[..k]
            && if k < |messages| then r.left < FrameOf(dumps(messages[k])) else r.left == ""
  {
    FramesAgree();
    hide ScanFrame, FrameOf;
    var contents := Sent(dumps, messages);
    var k := Arrived(FrameOf, contents, n);
    PrefixDelivered(ScanFrame, FrameOf, AnyContent, contents, n);
    PendingStartsNext(FrameOf, contents, n);
    assert contents[..k] == Sent(dumps, messages[..k]);
    DeliverSent(dumps, loads, messages[..k]);
  }

  /** A body that is not JSON drops out alone: the other messages are handed on as if it had not been there. */
  lemma BadBodyDropsOnlyItself<M>(loads: string -> Decoded<M>, before: seq<string>, bad: string, after: seq<string>)
    requires loads(bad).NotJson?
    ensures Deliver(loads, before + [bad] + after) == Deliver(loads, before + after)
  {
    assert before + [bad] + after == before + ([bad] + after);
    DeliverAppend(loads, before, [bad] + after);
    DeliverAppend(loads, before, after);
    assert ([bad] + after)[1..] == after;
  }

  // ----- what is on the wire, and what is read of it -----

  /** A frame, character by character. */
  lemma EmptyObjectOnTheWire()
    ensures FrameOf("{}") == "Content-Length: 2\r\n\r\n{}"
  {
    assert Decimal(2) == "2";
  }

  predicate NamesLength(line: string) {
    |line| >= 15 && Lower(line[..15]) == "content-length:"
  }

  lemma NamesLengthIs(line: string)
    ensures NamesLength(line) <==> StartsWith(Lower(line), LENGTH_FIELD)
  {
    if |line| >= 15 {
      assert Lower(line)[0..15] == Lower(line[..15]);
    }
  }

  /** Header lines of other fields say nothing about the length. */
  lemma {:induction false} OtherLines(lines: seq<string>, length: int)
    requires forall i :: 0 <= i < |lines| ==> !NamesLength(lines[i])
    ensures LengthOf(lines, length) == Some(length)
  {
    if lines != [] {
      NamesLengthIs(lines[0]);
      hide NamesLength, StartsWith;
      OtherLines(lines[1..], length);
    }
  }

  lemma {:induction false} LengthOfAppend(before: seq<string>, after: seq<string>, length: int)
    ensures LengthOf(before + after, length)
         == match LengthOf(before, length) { case None => None case Some(n) => LengthOf(after, n) }
  {
    hide StartsWith, Find, Strip, ParseInt, Lower;
    if before == [] {
      assert before + after == after;
    } else {
      assert (before + after)[0] == before[0] && (before + after)[1..] == before[1..] + after;
      if StartsWith(Lower(before[0]), LENGTH_FIELD) {
        var n := ParseInt(Strip(before[0][Find(before[0], ":") + 1..]));
        if n.Some? { LengthOfAppend(before[1..], after, n.value); }
      } else {
        LengthOfAppend(before[1..], after, length);
      }
    }
  }

  /** The name of the length field, in whatever case, and its value. */
  lemma LengthLine(name: string, value: string, length: int)
    requires Lower(name) == "content-length"
    ensures LengthOf([name + ":" + value], length) == ParseInt(Strip(value))
  {
    var line := name + ":" + value;
    assert |name| == 14;
    forall j | 0 <= j < 14
      ensures !At(line, ":", j)
    {
      assert LowerChar(name[j]) == "content-length"[j] && line[j] == name[j];
      NotAt(line, ":", j);
    }
    assert line[14..15] == ":";
    FindIs(line, ":", 14);
    assert line[15..] == value;
    NamesLengthIs(line);
    assert Lower(line[..15]) == "content-length:" by {
      assert forall j :: 0 <= j < 15 ==> Lower(line[..15])[j] == "content-length:"[j];
    }
    hide Lower, Strip, ParseInt, StartsWith, Find;
    assert [line][1..] == [];
  }

  /** The last length field is the one that counts, whatever is in the lines around it. */
  lemma LastLengthCounts(before: seq<string>, name: string, value: string, after: seq<string>)
    requires Lower(name) == "content-length" && LengthOf(before, 0).Some?
    requires forall i :: 0 <= i < |after| ==> !NamesLength(after[i])
    ensures LengthOf(before + [name + ":" + value] + after, 0) == ParseInt(Strip(value))
  {
    hide LengthOf, Strip, ParseInt, Lower, NamesLength;
    LengthOfAppend(before + [name + ":" + value], after, 0);
    LengthOfAppend(before, [name + ":" + value], 0);
    LengthLine(name, value, LengthOf(before, 0).value);
    var n := ParseInt(Strip(value));
    if n.Some? { OtherLines(after, n.value); }
  }

  /** A body that is JSON but no object ends the reader, and nothing behind it is handed on. */
  lemma OtherJsonEndsReader<M>(loads: string -> Decoded<M>, before: seq<string>, other: string, after: seq<string>)
    requires loads(other).OtherJson? && !Deliver(loads, before).ended
    ensures Deliver(loads, before + [other] + after) == Delivered(Deliver(loads, before).messages, true)
  {
    assert before + [other] + after == before + ([other] + after);
    DeliverAppend(loads, before, [other] + after);
    assert Deliver(loads, [other] + after) == Delivered([], true);
    AppendNone(Deliver(loads, before).messages);
  }

  /** What each `recv` brings. */
  function Brought(recvs: seq<Recv>): seq<string> {
    seq(|recvs|, i requires 0 <= i < |recvs| => if recvs[i].Data? then recvs[i].bytes else "")
  }

  predicate IsEnd(r: Recv) {
    r in [Failed, StopRequested, Data("")]
  }

  /** The input is all that comes before the first failure, stop or empty read, time-outs passed over. */
  lemma {:induction false} InputIs(recvs: seq<Recv>, k: nat)
    requires k <= |recvs| && (forall i :: 0 <= i < k ==> !IsEnd(recvs[i])) && (k < |recvs| ==> IsEnd(recvs[k]))
    ensures Input(recvs) == Concat(Brought(recvs[..k]))
  {
    if k > 0 {
      InputIs(recvs[1..], k - 1);
      assert recvs[..k][1..] == recvs[1..][..k - 1];
      assert Brought(recvs[..k])[1..] == Brought(recvs[..k][1..]);
    }
  }
}
