/**
 Incremental framing, once for every reader of the repository. A scanner looks at the bytes
 buffered so far and either wants more, or cuts one frame off the front, or finds a header it
 cannot read. All the read loops do the same with it: append what arrived, then cut frames
 until the scanner wants more. What that delivers cannot depend on where the stream was cut,
 provided the scanner is `Incremental`.
 */
module Framing {
  import opened Text

  datatype Scan<T> =
    | NeedMore
    | Frame(body: seq<T>, rest: seq<T>)
    | Broken

  type Scanner<!T> = seq<T> -> Scan<T>

  ghost predicate Shrinks<T>(scan: Scanner<T>, a: seq<T>) {
    scan(a).Frame? ==> |scan(a).rest| < |a|
  }

  /** The verdict on `a` still stands when `b` has arrived behind it. */
  ghost predicate Stable<T>(scan: Scanner<T>, a: seq<T>, b: seq<T>) {
    && (scan(a).Frame? ==> scan(a + b) == Frame(scan(a).body, scan(a).rest + b))
    && (scan(a).Broken? ==> scan(a + b).Broken?)
  }

  /** Every frame takes something off the buffer, and bytes that arrive later change no verdict. */
  ghost predicate Incremental<T(!new)>(scan: Scanner<T>) {
    && (forall a: seq<T> :: Shrinks(scan, a))
    && (forall a: seq<T>, b: seq<T> :: Stable(scan, a, b))
  }

  /** What cutting frames off a buffer delivers, what stays, and whether a header was unreadable. */
  datatype Drained<T> = Drained(bodies: seq<seq<T>>, left: seq<T>, broken: bool)

  ghost function Drain<T>(scan: Scanner<T>, buf: seq<T>): Drained<T>
    decreases |buf|
  {
    match scan(buf)
    case NeedMore => Drained([], buf, false)
    case Broken => Drained([], buf, true)
    case Frame(body, rest) =>
      if |rest| < |buf| then
        var d := Drain(scan, rest);
        Drained([body] + d.bodies, d.left, d.broken)
      else Drained([], buf, false)
  }

  /** What draining first `d` and then `e` comes to. */
  function Joined<T>(d: Drained<T>, e: Drained<T>): Drained<T> {
    Drained(d.bodies + e.bodies, e.left, e.broken)
  }

  /** Draining what arrived first and then the rest delivers what draining it all at once does. */
  lemma {:induction false} DrainSplit<T(!new)>(scan: Scanner<T>, a: seq<T>, b: seq<T>)
    requires Incremental(scan)
    ensures Drain(scan, a + b) == Joined(Drain(scan, a), Drain(scan, Drain(scan, a).left + b))
    decreases |a|
  {
    assert Shrinks(scan, a) && Stable(scan, a, b) && Shrinks(scan, a + b);
    hide Incremental;
    match scan(a)
    case NeedMore =>
    case Broken =>
    case Frame(body, rest) =>
      DrainSplit(scan, rest, b);
      Associative([body], Drain(scan, rest).bodies, Drain(scan, Drain(scan, rest).left + b).bodies);
  }

  /** There is nothing left to cut off what draining left. */
  lemma {:induction false} DrainSettles<T>(scan: Scanner<T>, buf: seq<T>)
    ensures var d := Drain(scan, buf);
            Drain(scan, d.left) == Drained([], d.left, d.broken)
    decreases |buf|
  {
    if scan(buf).Frame? && |scan(buf).rest| < |buf| {
      DrainSettles(scan, scan(buf).rest);
    }
  }

  /** Nothing gets past an unreadable header. */
  lemma {:induction false} BrokenStays<T(!new)>(scan: Scanner<T>, a: seq<T>, b: seq<T>)
    requires Incremental(scan) && Drain(scan, a).broken
    ensures var left := Drain(scan, a).left + b;
            Drain(scan, left) == Drained([], left, true)
    decreases |a|
  {
    assert Stable(scan, a, b);
    if scan(a).Frame? {
      BrokenStays(scan, scan(a).rest, b);
    }
  }

  /** A read loop fed `chunks` one at a time, starting from the buffer `buf`. */
  ghost function FeedAll<T>(scan: Scanner<T>, buf: seq<T>, chunks: seq<seq<T>>): Drained<T>
    decreases |chunks|
  {
    if chunks == [] then Drain(scan, buf)
    else
      var d := Drain(scan, buf);
      Joined(d, FeedAll(scan, d.left + chunks[0], chunks[1..]))
  }

  /** However a stream is cut into chunks, the loop delivers and keeps the same. */
  lemma {:induction false} ChunksIrrelevant<T(!new)>(scan: Scanner<T>, buf: seq<T>, chunks: seq<seq<T>>)
    requires Incremental(scan)
    ensures FeedAll(scan, buf, chunks) == Drain(scan, buf + Concat(chunks))
    decreases |chunks|
  {
    if chunks == [] {
      assert buf + Concat(chunks) == buf;
    } else {
      hide Drain, Incremental;
      var d := Drain(scan, buf);
      ChunksIrrelevant(scan, d.left + chunks[0], chunks[1..]);
      assert d.left + Concat(chunks) == d.left + chunks[0] + Concat(chunks[1..]);
      DrainSplit(scan, buf, Concat(chunks));
    }
  }

  /**
   The printer `emit` and the scanner agree on the bodies in `domain`: a printed body is cut off
   whatever follows it, and a proper prefix of a printed body is not a frame yet.
   */
  ghost predicate Agree<T(!new)>(scan: Scanner<T>, emit: seq<T> -> seq<T>, domain: seq<T> -> bool) {
    && scan([]).NeedMore?
    && (forall body: seq<T>, rest: seq<T> :: domain(body) ==> CutsOff(scan, emit, body, rest))
    && (forall body: seq<T>, k: nat :: domain(body) ==> WaitsAt(scan, emit, body, k))
  }

  ghost predicate CutsOff<T>(scan: Scanner<T>, emit: seq<T> -> seq<T>, body: seq<T>, rest: seq<T>) {
    emit(body) != [] && scan(emit(body) + rest) == Frame(body, rest)
  }

  ghost predicate WaitsAt<T>(scan: Scanner<T>, emit: seq<T> -> seq<T>, body: seq<T>, k: nat) {
    k < |emit(body)| ==> scan(emit(body)[..k]).NeedMore?
  }

  /** The printed bodies one after the other. */
  function Wire<T>(emit: seq<T> -> seq<T>, bodies: seq<seq<T>>): seq<T> {
    if bodies == [] then [] else emit(bodies[0]) + Wire(emit, bodies[1..])
  }

  lemma {:induction false} WireAppend<T>(emit: seq<T> -> seq<T>, bodies: seq<seq<T>>, body: seq<T>)
    ensures Wire(emit, bodies + [body]) == Wire(emit, bodies) + emit(body)
  {
    if bodies == [] {
      assert bodies + [body] == [body];
    } else {
      assert (bodies + [body])[1..] == bodies[1..] + [body];
      WireAppend(emit, bodies[1..], body);
      Associative(emit(bodies[0]), Wire(emit, bodies[1..]), emit(body));
    }
  }

  /** How many of `bodies` have arrived in full once `n` items of their wire have. */
  function Arrived<T>(emit: seq<T> -> seq<T>, bodies: seq<seq<T>>, n: nat): (k: nat)
    ensures k <= |bodies|
  {
    if bodies == [] || n < |emit(bodies[0])| then 0
    else 1 + Arrived(emit, bodies[1..], n - |emit(bodies[0])|)
  }

  lemma DrainCuts<T>(scan: Scanner<T>, buf: seq<T>, body: seq<T>, rest: seq<T>)
    requires scan(buf) == Frame(body, rest) && |rest| < |buf|
    ensures Drain(scan, buf) == Joined(Drained([body], [], false), Drain(scan, rest))
  {
  }

  lemma DrainWaits<T>(scan: Scanner<T>, buf: seq<T>)
    requires scan(buf).NeedMore?
    ensures Drain(scan, buf) == Drained([], buf, false)
  {
  }

  /** The start of the next body's print that has arrived behind the last complete one. */
  function Pending<T>(emit: seq<T> -> seq<T>, bodies: seq<seq<T>>, n: nat): (part: seq<T>) {
    if bodies == [] then []
    else if n < |emit(bodies[0])| then emit(bodies[0])[..n]
    else Pending(emit, bodies[1..], n - |emit(bodies[0])|)
  }

  /** What is pending is where the print of the first body that has not arrived starts. */
  lemma {:induction false} PendingStartsNext<T>(emit: seq<T> -> seq<T>, bodies: seq<seq<T>>, n: nat)
    ensures var k := Arrived(emit, bodies, n);
            if k < |bodies| then Pending(emit, bodies, n) < emit(bodies[k]) else Pending(emit, bodies, n) == []
  {
    if bodies != [] && n >= |emit(bodies[0])| {
      PendingStartsNext(emit, bodies[1..], n - |emit(bodies[0])|);
    }
  }

  /**
   After any `n` items of the wire of `bodies`, exactly the bodies that arrived in full have been
   delivered, in order, and exactly the items behind the last of them are still buffered.
   */
  lemma {:induction false} PrefixDelivered<T(!new)>(
    scan: Scanner<T>, emit: seq<T> -> seq<T>, domain: seq<T> -> bool, bodies: seq<seq<T>>, n: nat)
    requires Agree(scan, emit, domain)
    requires forall i :: 0 <= i < |bodies| ==> domain(bodies[i])
    requires n <= |Wire(emit, bodies)|
    ensures Drain(scan, Wire(emit, bodies)[..n])
         == Drained(bodies[..Arrived(emit, bodies, n)], Pending(emit, bodies, n), false)
    decreases |bodies|
  {
    assert scan([]).NeedMore?;
    if bodies != [] {
      var first, later := emit(bodies[0]), Wire(emit, bodies[1..]);
      assert domain(bodies[0]);
      if n < |first| {
        assert WaitsAt(scan, emit, bodies[0], n);
        hide Agree;
        TakeWithin(first, later, n);
      } else {
        var m := n - |first|;
        assert CutsOff(scan, emit, bodies[0], later[..m]);
        hide Agree, WaitsAt;
        TakeBeyond(first, later, n);
        PrefixDelivered(scan, emit, domain, bodies[1..], m);
        DrainCuts(scan, first + later[..m], bodies[0], later[..m]);
        hide Drain;
        TakeCons(bodies, Arrived(emit, bodies, n));
      }
    }
  }
}
