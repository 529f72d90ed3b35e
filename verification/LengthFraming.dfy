/**
 The stall reproduction of planning/repro: requests framed by a four-byte big-endian length, and
 the device that answers each with a list of replies over a socket that accepts short writes.
 The device is proved to count every complete request of what it received and to answer it in
 full and in order, whatever the pieces are in which the bytes come in and go out; and the
 length of the answers is compared with what the client waits for.
 */
module LengthFraming {
  import opened Text
  import opened Framing

  type byte = b: int | 0 <= b < 256

  function ToBytes(n: nat): (b: seq<byte>)
    requires n < 0x1_0000_0000
    ensures |b| == 4
  {
    [n / 0x100_0000, n / 0x1_0000 % 256, n / 0x100 % 256, n % 256]
  }

  function FromBytes(b: seq<byte>): nat {
    if b == [] then 0 else 256 * FromBytes(b[..|b| - 1]) + b[|b| - 1]
  }

  lemma FromBytesFour(a: byte, b: byte, c: byte, d: byte)
    ensures FromBytes([a, b, c, d]) == 0x100_0000 * a + 0x1_0000 * b + 0x100 * c + d
  {
    assert [a][..0] == [] && FromBytes([a]) == a;
    assert [a, b][..1] == [a] && FromBytes([a, b]) == 0x100 * a + b;
    assert [a, b, c][..2] == [a, b] && FromBytes([a, b, c]) == 0x1_0000 * a + 0x100 * b + c;
    assert [a, b, c, d][..3] == [a, b, c];
  }

  lemma FourDigits(n: nat)
    requires n < 0x1_0000_0000
    ensures 0x100_0000 * (n / 0x100_0000) + 0x1_0000 * (n / 0x1_0000 % 256) + 0x100 * (n / 0x100 % 256) + n % 256 == n
  {
    assert n == 0x100 * (n / 0x100) + n % 0x100;
    assert n / 0x100 == 0x100 * (n / 0x1_0000) + n / 0x100 % 0x100;
    assert n / 0x1_0000 == 0x100 * (n / 0x100_0000) + n / 0x1_0000 % 0x100;
  }

  lemma FromToBytes(n: nat)
    requires n < 0x1_0000_0000
    ensures FromBytes(ToBytes(n)) == n
  {
    var b := ToBytes(n);
    assert b == [b[0], b[1], b[2], b[3]];
    FromBytesFour(b[0], b[1], b[2], b[3]);
    hide FromBytes;
    FourDigits(n);
  }

  /** The lengths four bytes can carry. */
  predicate Fits(body: seq<byte>) {
    |body| < 0x1_0000_0000
  }

  function FrameOf(body: seq<byte>): seq<byte> {
    if Fits(body) then ToBytes(|body|) + body else []
  }

  function ScanFrame(buf: seq<byte>): Scan<byte> {
    if |buf| < 4 then NeedMore
    else
      var n := FromBytes(buf[..4]);
      if |buf| < 4 + n then NeedMore else Frame(buf[4..4 + n], buf[4 + n..])
  }

  lemma ScanFrameIncremental()
    ensures Incremental(ScanFrame)
  {
    forall a: seq<byte>, b: seq<byte>
      ensures Stable(ScanFrame, a, b)
    {
      if ScanFrame(a).Frame? {
        assert (a + b)[..4] == a[..4];
        var n := FromBytes(a[..4]);
        SliceWithin(a, b, 4, 4 + n);
      }
    }
  }

  lemma FramesAgree()
    ensures Agree(ScanFrame, FrameOf, Fits)
  {
    forall body: seq<byte>, rest: seq<byte> | Fits(body)
      ensures CutsOff(ScanFrame, FrameOf, body, rest)
    {
      var text := FrameOf(body) + rest;
      FromToBytes(|body|);
      assert text[..4] == ToBytes(|body|);
      assert text[4..4 + |body|] == body;
      assert text[4 + |body|..] == rest;
    }
    forall body: seq<byte>, k: nat | Fits(body)
      ensures WaitsAt(ScanFrame, FrameOf, body, k)
    {
      if 4 <= k < |FrameOf(body)| {
        FromToBytes(|body|);
        assert FrameOf(body)[..k][..4] == ToBytes(|body|);
      }
    }
  }

  /** A reply: eight digits of the measured milliseconds, then filler up to `size` bytes. */
  function Payload(size: nat, stamp: nat): (data: seq<byte>)
    ensures |data| == if size < 8 then 8 else size
  {
    var digits := Decimal(if stamp < 99999999 then stamp else 99999999);
    DecimalWidth(if stamp < 99999999 then stamp else 99999999, 8);
    var head := Zeros(8 - |digits|) + digits;
    Bytes(head) + Filler(size - 8)
  }

  function Zeros(n: nat): (s: string)
    ensures |s| == n
  {
    if n == 0 then "" else "0" + Zeros(n - 1)
  }

  function Power10(k: nat): nat {
    if k == 0 then 1 else 10 * Power10(k - 1)
  }

  lemma {:induction false} DecimalWidth(n: nat, k: nat)
    requires k > 0 && n < Power10(k)
    ensures |Decimal(n)| <= k
  {
    if n >= 10 {
      DecimalWidth(n / 10, k - 1);
    }
  }

  function Bytes(s: string): (b: seq<byte>)
    ensures |b| == |s|
  {
    if s == "" then [] else [s[0] as int % 256] + Bytes(s[1..])
  }

  function Filler(n: int): (b: seq<byte>)
    ensures |b| == if n < 0 then 0 else n
  {
    if n <= 0 then [] else ['x' as int] + Filler(n - 1)
  }

  /** What one `send` call does: take some of the bytes offered, or fail. */
  datatype SendResult = Accepted(n: nat) | Retryable | Fatal

  predicate NoneFatal(net: seq<SendResult>) {
    forall i :: 0 <= i < |net| ==> !net[i].Fatal?
  }

  datatype SendOutcome = AllSent | Raised | Waiting

  /** `wire` is `before` with all of `data`, or with some first part of it, behind it. */
  predicate Fully(before: seq<byte>, wire: seq<byte>, data: seq<byte>) {
    wire == before + data
  }

  predicate Partly(before: seq<byte>, wire: seq<byte>, data: seq<byte>) {
    before <= wire <= before + data
  }

  /** What the device's `recv` can come back with; every failure of it only ends the inner loop. */
  datatype Recv = Data(bytes: seq<byte>) | Failed

  function Input(recvs: seq<Recv>): seq<byte> {
    if recvs == [] || recvs[0] == Data([]) then []
    else (if recvs[0].Data? then recvs[0].bytes else []) + Input(recvs[1..])
  }

  /** The reply sizes for the `k`th request: the last list repeats. */
  function SizesFor(replies: seq<seq<nat>>, k: nat): seq<nat>
    requires replies != []
  {
    if k < |replies| then replies[k] else replies[|replies| - 1]
  }

  /** The replies of the given sizes, one after the other. */
  function Payloads(sizes: seq<nat>, stamp: nat): seq<byte> {
    if sizes == [] then [] else Payloads(sizes[..|sizes| - 1], stamp) + Payload(sizes[|sizes| - 1], stamp)
  }

  /** Every reply to the `n` requests from number `first` on; `stamps` is what was measured for each. */
  function Answers(replies: seq<seq<nat>>, stamps: nat -> nat, first: nat, n: nat): seq<byte>
    requires replies != []
  {
    if n == 0 then []
    else
      var last := first + n - 1;
      Answers(replies, stamps, first, n - 1) + Payloads(SizesFor(replies, last), stamps(last))
  }

  /** The socket and the counters of one `serve` call. `net` is how its coming `send` calls go. */
  class Device {
    const replies: seq<seq<nat>>
    const stamps: nat -> nat
    var wire: seq<byte>
    var nreq: nat
    var net: seq<SendResult>

    constructor (replies: seq<seq<nat>>, stamps: nat -> nat, net: seq<SendResult>)
      ensures this.replies == replies && this.stamps == stamps && this.net == net
      ensures wire == [] && nreq == 0
    {
      this.replies, this.stamps, this.net := replies, stamps, net;
      wire, nreq := [], 0;
    }

    /** Offer what is left until all of it has been taken. `Waiting` when `net` runs out first. */
    method SendAll(data: seq<byte>) returns (outcome: SendOutcome)
      modifies this`wire, this`net
      ensures Partly(old(wire), wire, data)
      ensures outcome.AllSent? ==> Fully(old(wire), wire, data)
      ensures outcome.Raised? ==> !NoneFatal(old(net))
      ensures NoneFatal(old(net)) ==> NoneFatal(net)
      ensures outcome.Waiting? ==> net == []
    {
      var sent: nat := 0;
      assert wire == wire + data[..0];
      while sent < |data|
        invariant sent <= |data| && wire == old(wire) + data[..sent]
        invariant NoneFatal(old(net)) ==> NoneFatal(net)
        decreases |net|
      {
        if net == [] { return Waiting; }
        var result := net[0];
        net := net[1..];
        match result {
          case Accepted(n) =>
            var taken := if n < |data| - sent then n else |data| - sent;
            TakeMore(data, sent, taken);
            Associative(old(wire), data[..sent], data[sent..sent + taken]);
            wire := wire + data[sent..sent + taken];
            sent := sent + taken;
          case Retryable =>
          case Fatal => return Raised;
        }
      }
      return AllSent;
    }

    /** The replies to one request, each sent in full before the next is started. */
    method SendReplies(sizes: seq<nat>, stamp: nat) returns (outcome: SendOutcome)
      modifies this`wire, this`net
      ensures Partly(old(wire), wire, Payloads(sizes, stamp))
      ensures outcome.AllSent? ==> Fully(old(wire), wire, Payloads(sizes, stamp))
      ensures NoneFatal(old(net)) ==> NoneFatal(net) && !outcome.Raised?
      ensures outcome.Waiting? ==> net == []
    {
      var i := 0;
      while i < |sizes|
        invariant 0 <= i <= |sizes|
        invariant wire == old(wire) + Payloads(sizes[..i], stamp)
        invariant NoneFatal(old(net)) ==> NoneFatal(net)
      {
        PayloadsNext(sizes, stamp, i, old(wire));
        outcome := SendAll(Payload(sizes[i], stamp));
        if !outcome.AllSent? { return; }
        i := i + 1;
      }
      assert sizes[..i] == sizes;
      return AllSent;
    }

    /** The innermost loop of `serve`: answer every complete frame in the buffer. */
    method HandleFrames(buffered: seq<byte>) returns (left: seq<byte>, outcome: SendOutcome)
      requires replies != []
      modifies this
      ensures NoneFatal(old(net)) ==> NoneFatal(net) && !outcome.Raised?
      ensures outcome.Waiting? ==> net == []
      ensures NoneFatal(old(net)) && outcome.AllSent? ==>
                left == Left(buffered) && nreq == old(nreq) + Requests(buffered)
                && Answered(replies, stamps, old(wire), wire, old(nreq), Requests(buffered))
      ensures outcome.Waiting? && NoneFatal(old(net)) ==>
                MidReply(replies, stamps, old(wire), wire, old(nreq), nreq, Requests(buffered))
    {
      hide *;
      var buf := buffered;
      ghost var done: nat := 0;
      AnsweredNone(replies, stamps, wire, nreq);
      while ScanFrame(buf).Frame?
        invariant NoneFatal(old(net)) ==> NoneFatal(net)
        invariant done + Requests(buf) == Requests(buffered) && Left(buf) == Left(buffered)
        invariant nreq == old(nreq) + done && Answered(replies, stamps, old(wire), wire, old(nreq), done)
        decreases |buf|
      {
        CountStep(buf);
        buf := ScanFrame(buf).rest;
        var sizes := SizesFor(replies, nreq);
        var stamp := stamps(nreq);
        nreq := nreq + 1;
        ghost var before := wire;
        outcome := SendReplies(sizes, stamp);
        AnsweredNext(replies, stamps, old(wire), before, wire, old(nreq), done, Requests(buffered));
        if !outcome.AllSent? { return buf, outcome; }
        done := done + 1;
      }
      CountStep(buf);
      return buf, AllSent;
    }

    /**
     `serve` from behind the config line on, over the outcomes of its `recv` calls. A failure of the
     socket, a time-out included, only ends the inner loop; the buffer stays.
     */
    method Serve(recvs: seq<Recv>) returns (left: seq<byte>, outcome: SendOutcome)
      requires replies != []
      modifies this
      ensures NoneFatal(old(net)) ==> !outcome.Raised?
      ensures outcome.Waiting? ==> net == []
      ensures NoneFatal(old(net)) && outcome.AllSent? ==>
                left == Left(Input(recvs)) && nreq == old(nreq) + Requests(Input(recvs))
                && Answered(replies, stamps, old(wire), wire, old(nreq), Requests(Input(recvs)))
      ensures NoneFatal(old(net)) && outcome.Waiting? ==>
                MidReply(replies, stamps, old(wire), wire, old(nreq), nreq, Requests(Input(recvs)))
    {
      hide *;
      var buf: seq<byte> := [];
      var i := 0;
      ghost var done: nat := 0;
      AnsweredNone(replies, stamps, wire, nreq);
      AheadStart(recvs);
      while i < |recvs| && recvs[i] != Data([])
        invariant 0 <= i <= |recvs|
        invariant NoneFatal(old(net)) ==>
                    NoneFatal(net) && nreq == old(nreq) + done
                    && Answered(replies, stamps, old(wire), wire, old(nreq), done)
                    && Requests(buf) == 0 && Left(buf) == buf
                    && done + RequestsAhead(buf, recvs, i) == Requests(Input(recvs))
                    && LeftAhead(buf, recvs, i) == Left(Input(recvs))
      {
        match recvs[i] {
          case Failed =>
            AheadFailed(buf, recvs, i);
          case Data(bytes) =>
            AheadData(buf, recvs, i);
            ghost var before := wire;
            left, outcome := HandleFrames(buf + bytes);
            if NoneFatal(old(net)) {
              AnsweredMore(replies, stamps, old(wire), before, wire, old(nreq), done, nreq,
                           Requests(buf + bytes), Requests(Input(recvs)));
            }
            if outcome.Waiting? { return; }
            done := done + Requests(buf + bytes);
            buf := left;
        }
        i := i + 1;
      }
      AheadEnd(buf, recvs, i);
      return buf, AllSent;
    }
  }

  /** What is still to come of a `serve` whose buffer is `buf` before its `i`th `recv`. */
  ghost function RequestsAhead(buf: seq<byte>, recvs: seq<Recv>, i: nat): nat
    requires i <= |recvs|
  {
    Requests(buf + Input(recvs[i..]))
  }

  ghost function LeftAhead(buf: seq<byte>, recvs: seq<Recv>, i: nat): seq<byte>
    requires i <= |recvs|
  {
    Left(buf + Input(recvs[i..]))
  }

  lemma AheadStart(recvs: seq<Recv>)
    ensures RequestsAhead([], recvs, 0) == Requests(Input(recvs)) && LeftAhead([], recvs, 0) == Left(Input(recvs))
    ensures Requests([]) == 0 && Left([]) == []
  {
    assert recvs[0..] == recvs && [] + Input(recvs) == Input(recvs);
  }

  lemma AheadEnd(buf: seq<byte>, recvs: seq<Recv>, i: nat)
    requires i <= |recvs| && (i < |recvs| ==> recvs[i] == Data([]))
    ensures RequestsAhead(buf, recvs, i) == Requests(buf) && LeftAhead(buf, recvs, i) == Left(buf)
  {
    assert buf + Input(recvs[i..]) == buf;
  }

  lemma AheadFailed(buf: seq<byte>, recvs: seq<Recv>, i: nat)
    requires i < |recvs| && recvs[i].Failed?
    ensures RequestsAhead(buf, recvs, i) == RequestsAhead(buf, recvs, i + 1)
    ensures LeftAhead(buf, recvs, i) == LeftAhead(buf, recvs, i + 1)
  {
    assert recvs[i..][1..] == recvs[i + 1..];
    assert Input(recvs[i..]) == Input(recvs[i + 1..]);
  }

  lemma AheadData(buf: seq<byte>, recvs: seq<Recv>, i: nat)
    requires i < |recvs| && recvs[i].Data? && recvs[i] != Data([])
    ensures var more := buf + recvs[i].bytes;
            && RequestsAhead(buf, recvs, i) == Requests(more) + RequestsAhead(Left(more), recvs, i + 1)
            && LeftAhead(buf, recvs, i) == LeftAhead(Left(more), recvs, i + 1)
            && Requests(Left(more)) == 0 && Left(Left(more)) == Left(more)
  {
    var more, later := buf + recvs[i].bytes, Input(recvs[i + 1..]);
    assert recvs[i..][1..] == recvs[i + 1..];
    Associative(buf, recvs[i].bytes, later);
    hide Input;
    ScanFrameIncremental();
    hide ScanFrame;
    DrainSplit(ScanFrame, more, later);
    DrainSettles(ScanFrame, more);
  }

  /**
   A reply is stuck on a socket that takes no more: of the requests up to `nreq`, all but the last
   have been answered in full, and the last in part.
   */
  ghost predicate MidReply(replies: seq<seq<nat>>, stamps: nat -> nat, before: seq<byte>, wire: seq<byte>,
                           first: nat, nreq: nat, arrived: nat)
    requires replies != []
  {
    first < nreq <= first + arrived
    && before + Answers(replies, stamps, first, nreq - 1 - first) <= wire
    <= before + Answers(replies, stamps, first, nreq - first)
  }

  lemma PayloadsNext(sizes: seq<nat>, stamp: nat, i: nat, before: seq<byte>)
    requires i < |sizes|
    ensures before + Payloads(sizes[..i + 1], stamp)
         == (before + Payloads(sizes[..i], stamp)) + Payload(sizes[i], stamp)
    ensures before + Payloads(sizes[..i + 1], stamp) <= before + Payloads(sizes, stamp)
  {
    assert sizes[..i + 1][..i] == sizes[..i];
    Associative(before, Payloads(sizes[..i], stamp), Payload(sizes[i], stamp));
    PayloadsGrow(sizes, stamp, i + 1);
  }

  lemma {:induction false} PayloadsGrow(sizes: seq<nat>, stamp: nat, i: nat)
    requires i <= |sizes|
    ensures Payloads(sizes[..i], stamp) <= Payloads(sizes, stamp)
  {
    if i == |sizes| {
      assert sizes[..i] == sizes;
    } else {
      var init := sizes[..|sizes| - 1];
      assert init[..i] == sizes[..i];
      PayloadsGrow(init, stamp, i);
    }
  }

  /** `wire` is `before` with the complete replies to the `n` requests from number `first` on behind it. */
  ghost predicate Answered(replies: seq<seq<nat>>, stamps: nat -> nat, before: seq<byte>, wire: seq<byte>,
                           first: nat, n: nat)
    requires replies != []
  {
    wire == before + Answers(replies, stamps, first, n)
  }

  lemma AnsweredNone(replies: seq<seq<nat>>, stamps: nat -> nat, wire: seq<byte>, first: nat)
    requires replies != []
    ensures Answered(replies, stamps, wire, wire, first, 0)
  {
    assert wire + [] == wire;
  }

  lemma AnsweredNext(replies: seq<seq<nat>>, stamps: nat -> nat, start: seq<byte>, before: seq<byte>,
                     wire: seq<byte>, first: nat, n: nat, arrived: nat)
    requires replies != []
    requires Answered(replies, stamps, start, before, first, n)
    ensures var more := Payloads(SizesFor(replies, first + n), stamps(first + n));
            && (Fully(before, wire, more) ==> Answered(replies, stamps, start, wire, first, n + 1))
            && (Partly(before, wire, more) && n < arrived ==>
                  MidReply(replies, stamps, start, wire, first, first + n + 1, arrived))
  {
    Associative(start, Answers(replies, stamps, first, n), Payloads(SizesFor(replies, first + n), stamps(first + n)));
  }

  /** Two runs of complete replies make one, and a run that ends mid-reply stays so behind another. */
  lemma AnsweredMore(replies: seq<seq<nat>>, stamps: nat -> nat, start: seq<byte>, before: seq<byte>,
                     wire: seq<byte>, first: nat, n: nat, nreq: nat, more: nat, arrived: nat)
    requires replies != [] && n + more <= arrived
    requires Answered(replies, stamps, start, before, first, n)
    ensures Answered(replies, stamps, before, wire, first + n, more) ==>
              Answered(replies, stamps, start, wire, first, n + more)
    ensures MidReply(replies, stamps, before, wire, first + n, nreq, more) ==>
              MidReply(replies, stamps, start, wire, first, nreq, arrived)
  {
    hide *;
    AnsweredJoin(replies, stamps, start, before, first, n, more);
    MidReplyJoin(replies, stamps, start, before, wire, first, n, nreq, more, arrived);
    AnsweredIs(replies, stamps, before, wire, first + n, more);
    AnsweredIs(replies, stamps, start, wire, first, n + more);
  }

  lemma AnsweredIs(replies: seq<seq<nat>>, stamps: nat -> nat, before: seq<byte>, wire: seq<byte>, first: nat, n: nat)
    requires replies != []
    ensures Answered(replies, stamps, before, wire, first, n) <==> wire == before + Answers(replies, stamps, first, n)
  {
  }

  lemma AnsweredJoin(replies: seq<seq<nat>>, stamps: nat -> nat, start: seq<byte>, before: seq<byte>,
                     first: nat, n: nat, more: nat)
    requires replies != []
    requires Answered(replies, stamps, start, before, first, n)
    ensures before + Answers(replies, stamps, first + n, more) == start + Answers(replies, stamps, first, n + more)
  {
    AnswersJoin(replies, stamps, first, n, more);
    Associative(start, Answers(replies, stamps, first, n), Answers(replies, stamps, first + n, more));
  }

  lemma MidReplyJoin(replies: seq<seq<nat>>, stamps: nat -> nat, start: seq<byte>, before: seq<byte>,
                     wire: seq<byte>, first: nat, n: nat, nreq: nat, more: nat, arrived: nat)
    requires replies != [] && n + more <= arrived
    requires Answered(replies, stamps, start, before, first, n)
    ensures MidReply(replies, stamps, before, wire, first + n, nreq, more) ==>
              MidReply(replies, stamps, start, wire, first, nreq, arrived)
  {
    hide Answered, Answers;
    if MidReply(replies, stamps, before, wire, first + n, nreq, more) {
      var done := nreq - first - n;
      AnsweredJoin(replies, stamps, start, before, first, n, done);
      AnsweredJoin(replies, stamps, start, before, first, n, done - 1);
    }
  }

  lemma {:induction false} AnswersJoin(replies: seq<seq<nat>>, stamps: nat -> nat, first: nat, n: nat, more: nat)
    requires replies != []
    ensures Answers(replies, stamps, first, n) + Answers(replies, stamps, first + n, more)
         == Answers(replies, stamps, first, n + more)
  {
    hide Payloads, SizesFor;
    if more > 0 {
      AnswersJoin(replies, stamps, first, n, more - 1);
      var last := Payloads(SizesFor(replies, first + n + more - 1), stamps(first + n + more - 1));
      Associative(Answers(replies, stamps, first, n), Answers(replies, stamps, first + n, more - 1), last);
    }
  }

  /** How many complete requests are in the buffer, and what is behind the last of them. */
  ghost function Requests(buf: seq<byte>): nat {
    |Drain(ScanFrame, buf).bodies|
  }

  ghost function Left(buf: seq<byte>): seq<byte> {
    Drain(ScanFrame, buf).left
  }

  lemma CountStep(buf: seq<byte>)
    ensures match ScanFrame(buf)
            case Frame(body, rest) =>
              |rest| < |buf| && Requests(buf) == 1 + Requests(rest) && Left(buf) == Left(rest)
            case _ => Requests(buf) == 0 && Left(buf) == buf
  {
  }

  lemma TakeMore(data: seq<byte>, sent: nat, taken: nat)
    requires sent + taken <= |data|
    ensures data[..sent] + data[sent..sent + taken] == data[..sent + taken]
  {
  }

  /**
   Of any requests framed with fewer than 2^32 bytes each, once the first `n` bytes have come in the
   device has counted exactly those that are complete, and what it keeps is the start of the next.
   */
  lemma RequestsReceived(bodies: seq<seq<byte>>, n: nat, recvs: seq<Recv>)
    requires forall i :: 0 <= i < |bodies| ==> Fits(bodies[i])
    requires n <= |Wire(FrameOf, bodies)| && Input(recvs) == Wire(FrameOf, bodies)[..n]
    ensures var k := Arrived(FrameOf, bodies, n);
            Requests(Input(recvs)) == k
            && if k < |bodies| then Left(Input(recvs)) < FrameOf(bodies[k]) else Left(Input(recvs)) == []
  {
    FramesAgree();
    hide ScanFrame, FrameOf, Fits;
    PrefixDelivered(ScanFrame, FrameOf, Fits, bodies, n);
    PendingStartsNext(FrameOf, bodies, n);
  }

  function Sum(sizes: seq<nat>): nat {
    if sizes == [] then 0 else Sum(sizes[..|sizes| - 1]) + sizes[|sizes| - 1]
  }

  /** A list of replies is as long as the client expects exactly when no reply is shorter than its stamp. */
  lemma {:induction false} PayloadsLength(sizes: seq<nat>, stamp: nat)
    ensures |Payloads(sizes, stamp)| >= Sum(sizes)
    ensures |Payloads(sizes, stamp)| == Sum(sizes) <==> forall i :: 0 <= i < |sizes| ==> sizes[i] >= 8
  {
    hide Payload;
    if sizes != [] {
      PayloadsLength(sizes[..|sizes| - 1], stamp);
    }
  }

  /** What the client waits for over `n` requests from number `first` on. */
  function Wanted(replies: seq<seq<nat>>, first: nat, n: nat): nat
    requires replies != []
  {
    if n == 0 then 0 else Wanted(replies, first, n - 1) + Sum(SizesFor(replies, first + n - 1))
  }

  /** With no reply size under 8, `n` requests are answered with exactly the bytes the client waits for. */
  lemma {:induction false} AnswersLength(replies: seq<seq<nat>>, stamps: nat -> nat, first: nat, n: nat)
    requires replies != []
    requires forall l, i :: 0 <= l < |replies| && 0 <= i < |replies[l]| ==> replies[l][i] >= 8
    ensures |Answers(replies, stamps, first, n)| == Wanted(replies, first, n)
  {
    hide Payloads, Sum;
    if n > 0 {
      AnswersLength(replies, stamps, first, n - 1);
      PayloadsLength(SizesFor(replies, first + n - 1), stamps(first + n - 1));
    }
  }

  // ----- what is read and written, piece by piece -----

  /** What each `recv` brings. */
  function Brought(recvs: seq<Recv>): seq<seq<byte>> {
    seq(|recvs|, i requires 0 <= i < |recvs| => if recvs[i].Data? then recvs[i].bytes else [])
  }

  /** The input is all that comes before the client closes, failures passed over. */
  lemma {:induction false} InputIs(recvs: seq<Recv>, k: nat)
    requires k <= |recvs| && (forall i :: 0 <= i < k ==> recvs[i] != Data([])) && (k < |recvs| ==> recvs[k] == Data([]))
    ensures Input(recvs) == Concat(Brought(recvs[..k]))
  {
    if k > 0 {
      InputIs(recvs[1..], k - 1);
      assert recvs[..k][1..] == recvs[1..][..k - 1];
      assert Brought(recvs[..k])[1..] == Brought(recvs[..k][1..]);
    }
  }

  /** The replies of two lists are those of the one and then those of the other. */
  lemma {:induction false} PayloadsAppend(a: seq<nat>, b: seq<nat>, stamp: nat)
    ensures Payloads(a + b, stamp) == Payloads(a, stamp) + Payloads(b, stamp)
    decreases |b|
  {
    hide Payload;
    if b == [] {
      AppendNone(a);
      AppendNone(Payloads(a, stamp));
    } else {
      var n := |b| - 1;
      PayloadsAppend(a, b[..n], stamp);
      assert (a + b)[..|a + b| - 1] == a + b[..n];
      Associative(Payloads(a, stamp), Payloads(b[..n], stamp), Payload(b[n], stamp));
    }
  }

  /** A request is answered from the list of its number, the last list standing for all further ones. */
  lemma AnswersTo(replies: seq<seq<nat>>, stamps: nat -> nat, k: nat)
    requires replies != []
    ensures k < |replies| ==> Answers(replies, stamps, k, 1) == Payloads(replies[k], stamps(k))
    ensures k >= |replies| ==> Answers(replies, stamps, k, 1) == Payloads(replies[|replies| - 1], stamps(k))
  {
    hide Payloads;
    assert Answers(replies, stamps, k, 0) == [];
  }

  /** The number that digits stand for. */
  function DigitsValue(b: seq<byte>): int {
    if b == [] then 0 else 10 * DigitsValue(b[..|b| - 1]) + b[|b| - 1] - '0' as int
  }

  predicate AreDigits(b: seq<byte>) {
    forall i :: 0 <= i < |b| ==> '0' as int <= b[i] <= '9' as int
  }

  lemma {:induction false} BytesAt(s: string, i: nat)
    requires i < |s|
    ensures Bytes(s)[i] == s[i] as int % 256
  {
    if i > 0 { BytesAt(s[1..], i - 1); }
  }

  lemma BytesInit(s: string)
    requires s != ""
    ensures Bytes(s)[..|s| - 1] == Bytes(s[..|s| - 1]) && Bytes(s)[|s| - 1] == s[|s| - 1] as int % 256
  {
    var init := s[..|s| - 1];
    BytesAt(s, |s| - 1);
    forall i | 0 <= i < |init|
      ensures Bytes(s)[i] == Bytes(init)[i]
    {
      BytesAt(s, i);
      BytesAt(init, i);
    }
  }

  lemma {:induction false} ZerosAre(n: nat)
    ensures forall i :: 0 <= i < n ==> Zeros(n)[i] == '0'
  {
    if n > 0 { ZerosAre(n - 1); }
  }

  lemma {:induction false} ZerosValue(n: nat)
    ensures AreDigits(Bytes(Zeros(n))) && DigitsValue(Bytes(Zeros(n))) == 0
  {
    if n > 0 {
      ZerosValue(n - 1);
      ZerosAre(n);
      ZerosAre(n - 1);
      var s := Zeros(n);
      BytesInit(s);
      assert s[..n - 1] == Zeros(n - 1);
    }
  }

  lemma DigitsNext(b: seq<byte>)
    requires b != [] && AreDigits(b[..|b| - 1]) && '0' as int <= b[|b| - 1] <= '9' as int
    ensures AreDigits(b)
  {
  }

  lemma {:induction false} PaddedValue(zeros: nat, n: nat)
    ensures var b := Bytes(Zeros(zeros) + Decimal(n)); AreDigits(b) && DigitsValue(b) == n
  {
    hide Bytes, Zeros, AreDigits;
    var s := Zeros(zeros) + Decimal(n);
    BytesInit(s);
    var init := if n < 10 then Zeros(zeros) else Zeros(zeros) + Decimal(n / 10);
    if n < 10 {
      ZerosValue(zeros);
    } else {
      PaddedValue(zeros, n / 10);
    }
    assert s[..|s| - 1] == init && s[|s| - 1] == DigitChar(n % 10);
    DigitsNext(Bytes(s));
  }

  lemma {:induction false} FillerIs(n: int)
    ensures forall b :: b in Filler(n) ==> b == 'x' as int
  {
    if n > 0 { FillerIs(n - 1); }
  }

  /** The first eight bytes of a reply are the digits of its stamp, capped, and the others filler. */
  lemma PayloadReads(size: nat, stamp: nat)
    ensures var data := Payload(size, stamp);
            && AreDigits(data[..8]) && DigitsValue(data[..8]) == (if stamp > 99_999_999 then 99_999_999 else stamp)
            && forall b :: b in data[8..] ==> b == 'x' as int
  {
    hide Bytes, Filler, Zeros, AreDigits, DigitsValue;
    var n := if stamp < 99999999 then stamp else 99999999;
    DecimalWidth(n, 8);
    var zeros := 8 - |Decimal(n)|;
    PaddedValue(zeros, n);
    FillerIs(size - 8);
    var head := Bytes(Zeros(zeros) + Decimal(n));
    assert Payload(size, stamp) == head + Filler(size - 8);
    assert (head + Filler(size - 8))[..8] == head && (head + Filler(size - 8))[8..] == Filler(size - 8);
  }
}
