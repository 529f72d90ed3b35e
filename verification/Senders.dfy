/**
 Several threads that send requests through one DAP client. The frame goes out under a lock, in as
 many pieces as the socket takes; the sequence number is counted, read and returned outside it.
 Every step another thread can come between is an event.
 */
module Senders {
  import opened Wrappers
  import opened Text
  import opened Framing
  import opened Dap

  type Thread = nat

  /** `build(n, command)` is the content of the request with sequence number `n`. */
  type Builder = (nat, string) -> string

  /**
   Where a call of `send_request` is. `self.seq += 1` loads the counter and stores it; `seen` is how
   many calls had stored it by the load, and `place` which call this one was to store it. The message
   carries the `number` read for it.
   */
  datatype Caller =
    | Idle
    | Loaded(value: nat, seen: nat)
    | Counted(place: nat)
    | Built(content: string, number: nat, place: nat)
    | Holding(content: string, number: nat, place: nat, written: nat)
    | Sent(number: nat, place: nat)

  /** A message in the order the lock was taken. */
  datatype Turn = Turn(thread: Thread, content: string, number: nat, place: nat)

  datatype Event =
    | Load(thread: Thread)
    | Store(thread: Thread)
    | Build(thread: Thread, command: string)
    | Acquire(thread: Thread)
    | Write(thread: Thread, n: nat)
    | Release(thread: Thread)
    | Return(thread: Thread)

  /**
   `stores` is how often the counter was stored, `handed` what each thread has given to `_send`, in
   order, and `returned` the number sent and the number returned by each finished call.
   */
  datatype State = State(counter: nat, stores: nat, lock: Option<Thread>, wire: string, callers: map<Thread, Caller>,
                         taken: seq<Turn>, handed: map<Thread, seq<string>>, returned: seq<(nat, nat)>)

  const INITIAL := State(0, 0, None, "", map[], [], map[], [])

  function CallerOf(s: State, t: Thread): Caller {
    if t in s.callers then s.callers[t] else Idle
  }

  function HandedBy(s: State, t: Thread): seq<string> {
    if t in s.handed then s.handed[t] else []
  }

  /** Whether the thread can take the step: it has got there, the lock is free, the socket takes no more than there is. */
  predicate Enabled(s: State, e: Event) {
    var c := CallerOf(s, e.thread);
    match e
    case Load(_) => c.Idle?
    case Store(_) => c.Loaded?
    case Build(_, _) => c.Counted?
    case Acquire(_) => c.Built? && s.lock.None?
    case Write(_, n) => c.Holding? && c.written + n <= |FrameOf(c.content)|
    case Release(_) => c.Holding? && c.written == |FrameOf(c.content)|
    case Return(_) => c.Sent?
  }

  function Moved(s: State, t: Thread, c: Caller): State {
    s.(callers := s.callers[t := c])
  }

  function Next(build: Builder, s: State, e: Event): State
    requires Enabled(s, e)
  {
    var t, c := e.thread, CallerOf(s, e.thread);
    match e
    case Load(_) => Moved(s, t, Loaded(s.counter, s.stores))
    case Store(_) => Moved(s, t, Counted(s.stores + 1)).(counter := c.value + 1, stores := s.stores + 1)
    case Build(_, command) =>
      var content := build(s.counter, command);
      Moved(s, t, Built(content, s.counter, c.place)).(handed := s.handed[t := HandedBy(s, t) + [content]])
    case Acquire(_) =>
      Moved(s, t, Holding(c.content, c.number, c.place, 0))
        .(lock := Some(t), taken := s.taken + [Turn(t, c.content, c.number, c.place)])
    case Write(_, n) =>
      Moved(s, t, c.(written := c.written + n)).(wire := s.wire + FrameOf(c.content)[c.written..c.written + n])
    case Release(_) => Moved(s, t, Sent(c.number, c.place)).(lock := None)
    case Return(_) => Moved(s, t, Idle).(returned := s.returned + [(c.number, s.counter)])
  }

  predicate Possible(build: Builder, s: State, events: seq<Event>)
    decreases |events|
  {
    events == [] || (Enabled(s, events[0]) && Possible(build, Next(build, s, events[0]), events[1..]))
  }

  function Run(build: Builder, s: State, events: seq<Event>): State
    requires Possible(build, s, events)
    decreases |events|
  {
    if events == [] then s else Run(build, Next(build, s, events[0]), events[1..])
  }

  // ----- the wire is a merge of what the threads send -----

  function Contents(turns: seq<Turn>): seq<string> {
    seq(|turns|, i requires 0 <= i < |turns| => turns[i].content)
  }

  /** What one thread put into the merge, in order. */
  function By(turns: seq<Turn>, t: Thread): seq<string> {
    if turns == [] then []
    else By(turns[..|turns| - 1], t) + if turns[|turns| - 1].thread == t then [turns[|turns| - 1].content] else []
  }

  /** The content a thread has handed over and not yet got the lock for. */
  function Waiting(c: Caller): seq<string> {
    if c.Built? then [c.content] else []
  }

  /** The wire holds the frames in the order the lock was taken, the last as far as its holder has written it. */
  ghost predicate OnWire(s: State) {
    match s.lock
    case None => s.wire == Wire(FrameOf, Contents(s.taken))
    case Some(t) =>
      && var c := CallerOf(s, t);
      && c.Holding? && c.written <= |FrameOf(c.content)|
      && s.taken != [] && s.taken[|s.taken| - 1] == Turn(t, c.content, c.number, c.place)
      && s.wire == Wire(FrameOf, Contents(s.taken[..|s.taken| - 1])) + FrameOf(c.content)[..c.written]
  }

  predicate OneHolder(s: State) {
    forall t :: t in s.callers && s.callers[t].Holding? ==> s.lock == Some(t)
  }

  /** Each thread's messages are in the merge, in the order it sent them, but for one that waits for the lock. */
  ghost predicate Merges(s: State) {
    forall t :: InOrder(s, t)
  }

  predicate InOrder(s: State, t: Thread) {
    By(s.taken, t) + Waiting(CallerOf(s, t)) == HandedBy(s, t)
  }

  ghost predicate Inv(s: State) {
    OnWire(s) && OneHolder(s) && Merges(s)
  }

  lemma ByMore(turns: seq<Turn>, turn: Turn, t: Thread)
    ensures By(turns + [turn], t) == By(turns, t) + if turn.thread == t then [turn.content] else []
  {
    assert (turns + [turn])[..|turns|] == turns;
  }

  lemma ContentsMore(turns: seq<Turn>, turn: Turn)
    ensures Contents(turns + [turn]) == Contents(turns) + [turn.content]
  {
  }

  lemma WriteMore(before: string, frame: string, written: nat, n: nat)
    requires written + n <= |frame|
    ensures before + frame[..written] + frame[written..written + n] == before + frame[..written + n]
  {
    assert frame[..written] + frame[written..written + n] == frame[..written + n];
    Associative(before, frame[..written], frame[written..written + n]);
  }

  lemma WireLast(turns: seq<Turn>)
    requires turns != []
    ensures Wire(FrameOf, Contents(turns))
         == Wire(FrameOf, Contents(turns[..|turns| - 1])) + FrameOf(turns[|turns| - 1].content)
  {
    var front, last := turns[..|turns| - 1], turns[|turns| - 1];
    assert turns == front + [last];
    ContentsMore(front, last);
    WireAppend(FrameOf, Contents(front), last.content);
  }

  lemma OnWireKeeps(build: Builder, s: State, e: Event)
    requires OnWire(s) && OneHolder(s) && Enabled(s, e)
    ensures OnWire(Next(build, s, e)) && OneHolder(Next(build, s, e))
  {
    hide FrameOf, Wire, Contents;
    var c := CallerOf(s, e.thread);
    match e
    case Acquire(t) =>
      var turn := Turn(t, c.content, c.number, c.place);
      assert (s.taken + [turn])[..|s.taken|] == s.taken;
      AppendNone(s.wire);
      assert FrameOf(c.content)[..0] == "";
    case Write(t, n) =>
      WriteMore(Wire(FrameOf, Contents(s.taken[..|s.taken| - 1])), FrameOf(c.content), c.written, n);
    case Release(t) =>
      WireLast(s.taken);
      assert FrameOf(c.content)[..c.written] == FrameOf(c.content);
    case _ =>
  }

  lemma InOrderKeeps(build: Builder, s: State, e: Event, t: Thread)
    requires InOrder(s, t) && Enabled(s, e)
    ensures InOrder(Next(build, s, e), t)
  {
    var c := CallerOf(s, e.thread);
    AppendNone(By(s.taken, t));
    if e.Acquire? {
      ByMore(s.taken, Turn(e.thread, c.content, c.number, c.place), t);
      AppendNone(By(Next(build, s, e).taken, t));
    }
    hide FrameOf, By;
  }

  lemma MergesKeeps(build: Builder, s: State, e: Event)
    requires Merges(s) && Enabled(s, e)
    ensures Merges(Next(build, s, e))
  {
    hide Next, Enabled, Merges, InOrder;
    forall t
      ensures InOrder(Next(build, s, e), t)
    {
      MergesMeans(s, t);
      InOrderKeeps(build, s, e, t);
    }
    MergesAll(Next(build, s, e));
  }

  lemma MergesMeans(s: State, t: Thread)
    requires Merges(s)
    ensures InOrder(s, t)
  {
  }

  lemma MergesAll(s: State)
    requires forall t :: InOrder(s, t)
    ensures Merges(s)
  {
  }

  /**
   Over every interleaving: the wire is the frames of a merge that keeps each thread's order, and
   behind them the part of its frame that the holder of the lock has written.
   */
  lemma {:induction false} WireIsMerge(build: Builder, s: State, events: seq<Event>)
    requires Inv(s) && Possible(build, s, events)
    ensures Inv(Run(build, s, events))
    decreases |events|
  {
    hide OnWire, OneHolder, Merges, Next, Enabled;
    if events != [] {
      OnWireKeeps(build, s, events[0]);
      MergesKeeps(build, s, events[0]);
      WireIsMerge(build, Next(build, s, events[0]), events[1..]);
    }
  }

  lemma InitialInv()
    ensures Inv(INITIAL)
  {
    assert Contents([]) == [];
  }

  /** A reader of the wire gets the contents of the merge, all but possibly the last, and keeps the start of that one. */
  lemma ReadsMerge(s: State)
    requires OnWire(s)
    ensures var d := Drain(ScanFrame, s.wire);
            && !d.broken
            && ((d.bodies == Contents(s.taken) && d.left == "")
                || (s.lock.Some? && s.taken != [] && d.bodies == Contents(s.taken[..|s.taken| - 1])
                    && d.left < FrameOf(s.taken[|s.taken| - 1].content)))
  {
    FramesAgree();
    hide ScanFrame, FrameOf;
    var bodies := Contents(s.taken);
    var n := |s.wire|;
    if s.lock.None? {
      assert s.wire[..n] == s.wire;
      PrefixDelivered(ScanFrame, FrameOf, AnyContent, bodies, n);
      AllArrived(bodies);
    } else {
      var front, last := s.taken[..|s.taken| - 1], s.taken[|s.taken| - 1];
      var c := CallerOf(s, s.lock.value);
      WireLast(s.taken);
      var before := Wire(FrameOf, Contents(front));
      assert s.wire == (before + FrameOf(last.content))[..n];
      PrefixDelivered(ScanFrame, FrameOf, AnyContent, bodies, n);
      assert s.taken == front + [last];
      ContentsMore(front, last);
      ArrivedLast(Contents(front), last.content, c.written);
    }
  }

  /** So it is over every interleaving from the start, whatever has been written of the last frame. */
  lemma ReaderSeesMerge(build: Builder, events: seq<Event>)
    requires Possible(build, INITIAL, events)
    ensures var s := Run(build, INITIAL, events);
            var bodies := Drain(ScanFrame, s.wire).bodies;
            && (bodies == Contents(s.taken) || (s.taken != [] && bodies == Contents(s.taken[..|s.taken| - 1])))
            && forall t :: InOrder(s, t)
  {
    hide Next, Drain, ScanFrame, FrameOf, InOrder;
    InitialInv();
    WireIsMerge(build, INITIAL, events);
    ReadsMerge(Run(build, INITIAL, events));
  }

  lemma {:induction false} AllArrived(bodies: seq<string>)
    ensures Arrived(FrameOf, bodies, |Wire(FrameOf, bodies)|) == |bodies|
    ensures Pending(FrameOf, bodies, |Wire(FrameOf, bodies)|) == ""
    ensures bodies[..|bodies|] == bodies
  {
    hide FrameOf;
    if bodies != [] {
      AllArrived(bodies[1..]);
    }
  }

  lemma {:induction false} ArrivedLast(front: seq<string>, last: string, written: nat)
    requires written <= |FrameOf(last)|
    ensures var n := |Wire(FrameOf, front)| + written;
            && Arrived(FrameOf, front + [last], n) == |front| + (if written == |FrameOf(last)| then 1 else 0)
            && Pending(FrameOf, front + [last], n) == (if written == |FrameOf(last)| then "" else FrameOf(last)[..written])
    ensures (front + [last])[..|front|] == front && (front + [last])[..|front| + 1] == front + [last]
  {
    hide FrameOf;
    if front == [] {
      assert front + [last] == [last] && [last][1..] == [];
    } else {
      assert (front + [last])[1..] == front[1..] + [last];
      ArrivedLast(front[1..], last, written);
    }
  }

  // ----- the messages are the requests of the calls -----

  /** The content is a request with the number. */
  ghost predicate IsRequest(build: Builder, content: string, number: nat) {
    exists command :: content == build(number, command)
  }

  /** The content is a request for the command, with some number. */
  ghost predicate IsRequestFor(build: Builder, content: string, command: string) {
    exists number: nat :: content == build(number, command)
  }

  ghost predicate CallerCarries(build: Builder, c: Caller) {
    c.Built? || c.Holding? ==> IsRequest(build, c.content, c.number)
  }

  /** Every message carries the number it is recorded with. */
  ghost predicate Carries(build: Builder, s: State) {
    && (forall i :: 0 <= i < |s.taken| ==> IsRequest(build, s.taken[i].content, s.taken[i].number))
    && forall t :: CallerCarries(build, CallerOf(s, t))
  }

  /** The commands a thread calls for, in order. */
  function CommandsOf(events: seq<Event>, t: Thread): seq<string> {
    if events == [] then []
    else (if events[0].Build? && events[0].thread == t then [events[0].command] else []) + CommandsOf(events[1..], t)
  }

  /** What a thread handed over are requests for these commands, one for each. */
  ghost predicate HandedFor(build: Builder, s: State, t: Thread, commands: seq<string>) {
    && |HandedBy(s, t)| == |commands|
    && forall k :: 0 <= k < |commands| ==> IsRequestFor(build, HandedBy(s, t)[k], commands[k])
  }

  lemma NextCarries(build: Builder, s: State, e: Event)
    requires Carries(build, s) && Enabled(s, e)
    ensures Carries(build, Next(build, s, e))
  {
    hide FrameOf, IsRequest;
    var after := Next(build, s, e);
    assert CallerCarries(build, CallerOf(s, e.thread));
    assert e.Build? ==> IsRequest(build, build(s.counter, e.command), s.counter) by {
      if e.Build? { RequestIs(build, s.counter, e.command); }
    }
    forall t
      ensures CallerCarries(build, CallerOf(after, t))
    {
      assert CallerCarries(build, CallerOf(s, t));
    }
  }

  lemma RequestIs(build: Builder, number: nat, command: string)
    ensures IsRequest(build, build(number, command), number) && IsRequestFor(build, build(number, command), command)
  {
  }

  lemma NextHands(build: Builder, s: State, e: Event, t: Thread, commands: seq<string>)
    requires HandedFor(build, s, t, commands) && Enabled(s, e)
    ensures HandedFor(build, Next(build, s, e), t, commands + CommandsOf([e], t))
  {
    hide FrameOf, IsRequestFor;
    assert [e][1..] == [];
    AppendNone(commands);
    if e.Build? && e.thread == t {
      RequestIs(build, s.counter, e.command);
    }
  }

  lemma {:induction false} RequestsFrom(build: Builder, s: State, events: seq<Event>, t: Thread, commands: seq<string>)
    requires Carries(build, s) && HandedFor(build, s, t, commands) && Possible(build, s, events)
    ensures Carries(build, Run(build, s, events))
    ensures HandedFor(build, Run(build, s, events), t, commands + CommandsOf(events, t))
    decreases |events|
  {
    hide Carries, HandedFor, Next, Enabled;
    if events == [] {
      AppendNone(commands);
    } else {
      var e, later := events[0], events[1..];
      NextCarries(build, s, e);
      NextHands(build, s, e, t, commands);
      RequestsFrom(build, Next(build, s, e), later, t, commands + CommandsOf([e], t));
      assert [e][1..] == [];
      assert CommandsOf(events, t) == CommandsOf([e], t) + CommandsOf(later, t);
      Associative(commands, CommandsOf([e], t), CommandsOf(later, t));
    }
  }

  /**
   Over every interleaving, what goes on the wire are requests, each with the number recorded for it,
   and what a thread hands over are requests for its commands in the order it calls for them.
   */
  lemma WireHasRequests(build: Builder, events: seq<Event>, t: Thread)
    requires Possible(build, INITIAL, events)
    ensures Carries(build, Run(build, INITIAL, events))
    ensures HandedFor(build, Run(build, INITIAL, events), t, CommandsOf(events, t))
  {
    assert Carries(build, INITIAL) && HandedFor(build, INITIAL, t, []);
    hide Carries, HandedFor, Possible, Run;
    RequestsFrom(build, INITIAL, events, t, []);
    assert [] + CommandsOf(events, t) == CommandsOf(events, t);
  }

  // ----- sequence numbers -----

  /** Counted, and its message not yet in the merge. */
  predicate IsBusy(c: Caller) {
    c.Counted? || c.Built?
  }

  function Busy(s: State): set<Thread> {
    set t | t in s.callers && IsBusy(s.callers[t])
  }

  /** What the phases say of the counter, in any interleaving. */
  predicate IsBounded(c: Caller, stores: nat) {
    match c
    case Loaded(value, seen) => value <= seen <= stores
    case Counted(place) => 1 <= place <= stores
    case Built(_, number, place) => 1 <= place <= stores && number <= stores
    case _ => true
  }

  predicate Bounded(s: State) {
    && s.counter <= s.stores
    && (forall t :: t in s.callers ==> IsBounded(s.callers[t], s.stores))
    && (forall i :: 0 <= i < |s.taken| ==> 1 <= s.taken[i].place <= s.stores && s.taken[i].number <= s.stores)
  }

  /** No two calls counted in the same place. */
  predicate Unique(s: State) {
    UniqueBusy(s) && UniqueTaken(s)
  }

  predicate UniqueBusy(s: State) {
    forall t, u :: t in s.callers && u in s.callers && t != u && IsBusy(s.callers[t]) && IsBusy(s.callers[u]) ==>
      s.callers[t].place != s.callers[u].place
  }

  predicate UniqueTaken(s: State) {
    forall t, i :: t in s.callers && IsBusy(s.callers[t]) && 0 <= i < |s.taken| ==>
      s.callers[t].place != s.taken[i].place
  }

  /** Every call that counted is busy or in the merge. */
  predicate Accounted(s: State) {
    s.stores == |s.taken| + |Busy(s)|
  }

  predicate NumbersInv(s: State) {
    Bounded(s) && Unique(s) && Accounted(s)
  }

  lemma BoundedKeeps(build: Builder, s: State, e: Event)
    requires Bounded(s) && Enabled(s, e)
    ensures Bounded(Next(build, s, e))
  {
    hide FrameOf;
    var after := Next(build, s, e);
    assert forall t :: t in after.callers && t != e.thread ==> t in s.callers && after.callers[t] == s.callers[t];
  }

  lemma UniqueBusyKeeps(build: Builder, s: State, e: Event)
    requires Bounded(s) && UniqueBusy(s) && Enabled(s, e)
    ensures UniqueBusy(Next(build, s, e))
  {
    hide FrameOf, HandedBy;
    var after := Next(build, s, e);
    assert forall t :: t in after.callers && t != e.thread ==> t in s.callers && after.callers[t] == s.callers[t];
    assert forall t :: t in s.callers ==> IsBounded(s.callers[t], s.stores);
  }

  lemma UniqueTakenKeeps(build: Builder, s: State, e: Event)
    requires Bounded(s) && Unique(s) && Enabled(s, e)
    ensures UniqueTaken(Next(build, s, e))
  {
    hide FrameOf, HandedBy;
    var after := Next(build, s, e);
    assert forall t :: t in after.callers && t != e.thread ==> t in s.callers && after.callers[t] == s.callers[t];
    assert forall i :: 0 <= i < |s.taken| ==> after.taken[i] == s.taken[i];
  }

  lemma UniqueKeeps(build: Builder, s: State, e: Event)
    requires Bounded(s) && Unique(s) && Enabled(s, e)
    ensures Unique(Next(build, s, e))
  {
    UniqueBusyKeeps(build, s, e);
    UniqueTakenKeeps(build, s, e);
  }

  lemma BusyMoved(s: State, t: Thread, c: Caller)
    ensures Busy(Moved(s, t, c)) == if IsBusy(c) then Busy(s) + {t} else Busy(s) - {t}
    ensures t in Busy(s) <==> IsBusy(CallerOf(s, t))
  {
  }

  lemma BusyIs(s: State, after: State)
    requires s.callers == after.callers
    ensures Busy(s) == Busy(after)
  {
  }

  lemma AccountedKeeps(build: Builder, s: State, e: Event)
    requires Accounted(s) && Enabled(s, e)
    ensures Accounted(Next(build, s, e))
  {
    var t, after := e.thread, Next(build, s, e);
    BusyMoved(s, t, CallerOf(after, t));
    BusyIs(Moved(s, t, CallerOf(after, t)), after);
    hide FrameOf, Busy;
    assert IsBusy(CallerOf(s, t)) && IsBusy(CallerOf(after, t)) ==> Busy(s) + {t} == Busy(s);
    assert !IsBusy(CallerOf(s, t)) && !IsBusy(CallerOf(after, t)) ==> Busy(s) - {t} == Busy(s);
  }

  lemma NumbersKeep(build: Builder, s: State, e: Event)
    requires NumbersInv(s) && Enabled(s, e)
    ensures NumbersInv(Next(build, s, e))
  {
    BoundedKeeps(build, s, e);
    UniqueKeeps(build, s, e);
    AccountedKeeps(build, s, e);
  }

  predicate AllIdle(s: State) {
    forall t :: t in s.callers ==> s.callers[t].Idle?
  }

  /** The messages on the wire are numbered 1, 2, 3 and so on. */
  predicate Consecutive(s: State) {
    forall i :: 0 <= i < |s.taken| ==> s.taken[i].number == i + 1
  }

  /**
   A call overtakes another: one counts between the load and the store of this one, or between the
   store and the building of its message; or the lock is not taken in the order of counting.
   */
  predicate Overtakes(s: State, e: Event)
    requires Enabled(s, e)
  {
    var c := CallerOf(s, e.thread);
    match e
    case Store(_) => c.seen != s.stores
    case Build(_, _) => c.place != s.stores
    case Acquire(_) => c.place != |s.taken| + 1
    case _ => false
  }

  predicate Orderly(build: Builder, s: State, events: seq<Event>)
    requires Possible(build, s, events)
    decreases |events|
  {
    events == [] || (!Overtakes(s, events[0]) && Orderly(build, Next(build, s, events[0]), events[1..]))
  }

  /** As long as nobody overtakes: the counter is exact, and each message carries its place. */
  predicate IsTidy(c: Caller) {
    match c
    case Loaded(value, seen) => value == seen
    case Built(_, number, place) => number == place
    case _ => true
  }

  predicate Tidy(s: State) {
    && s.counter == s.stores
    && (forall t :: t in s.callers ==> IsTidy(s.callers[t]))
    && (forall i :: 0 <= i < |s.taken| ==> s.taken[i].place == i + 1)
    && Consecutive(s)
  }

  lemma TidyKeeps(build: Builder, s: State, e: Event)
    requires Tidy(s) && Enabled(s, e) && !Overtakes(s, e)
    ensures Tidy(Next(build, s, e))
  {
    hide FrameOf;
    var after := Next(build, s, e);
    assert forall t :: t in after.callers && t != e.thread ==> t in s.callers && after.callers[t] == s.callers[t];
  }

  // Once a call has overtaken another, one of these holds for good.

  /** A count was lost: nothing carries the number that the last call should. */
  predicate IsBelow(c: Caller, n: nat) {
    match c
    case Loaded(value, _) => value < n
    case Built(_, number, _) => number < n
    case _ => true
  }

  predicate Lost(s: State) {
    && s.counter < s.stores
    && (forall t :: t in s.callers ==> IsBelow(s.callers[t], s.stores))
    && (forall i :: 0 <= i < |s.taken| ==> s.taken[i].number < s.stores)
  }

  /** The counter has passed `k`, and no message carries it. */
  predicate Missing(s: State, k: nat) {
    && 1 <= k < s.stores && s.counter == s.stores
    && (forall t :: t in s.callers ==> IsLoadedTidily(s.callers[t]) && IsOther(s.callers[t], k))
    && (forall i :: 0 <= i < |s.taken| ==> s.taken[i].number != k)
  }

  predicate IsLoadedTidily(c: Caller) {
    c.Loaded? ==> c.value == c.seen
  }

  predicate IsOther(c: Caller, k: nat) {
    c.Built? ==> c.number != k
  }

  ghost predicate Damaged(s: State) {
    Lost(s) || (exists k: nat :: Missing(s, k)) || !Consecutive(s)
  }

  lemma StaleStoreLoses(build: Builder, s: State, t: Thread)
    requires Bounded(s) && Enabled(s, Store(t)) && CallerOf(s, t).seen < s.stores
    ensures Lost(Next(build, s, Store(t)))
  {
    var after := Next(build, s, Store(t));
    assert forall u :: u in after.callers && u != t ==> u in s.callers && after.callers[u] == s.callers[u];
    assert forall u :: u in s.callers ==> IsBounded(s.callers[u], s.stores);
  }

  lemma LostStays(build: Builder, s: State, e: Event)
    requires Lost(s) && Enabled(s, e)
    ensures Lost(Next(build, s, e))
  {
    hide FrameOf;
    var after := Next(build, s, e);
    assert forall t :: t in after.callers && t != e.thread ==> t in s.callers && after.callers[t] == s.callers[t];
  }

  lemma MissingStays(build: Builder, s: State, k: nat, e: Event)
    requires Bounded(s) && Missing(s, k) && Enabled(s, e)
    ensures Missing(Next(build, s, e), k) || Lost(Next(build, s, e))
  {
    if e.Store? && CallerOf(s, e.thread).seen < s.stores {
      StaleStoreLoses(build, s, e.thread);
    } else {
      hide FrameOf, Lost;
      var after := Next(build, s, e);
      assert forall t :: t in after.callers && t != e.thread ==> t in s.callers && after.callers[t] == s.callers[t];
      assert IsBounded(CallerOf(s, e.thread), s.stores);
    }
  }

  lemma MisplacedStays(build: Builder, s: State, e: Event)
    requires !Consecutive(s) && Enabled(s, e)
    ensures !Consecutive(Next(build, s, e))
  {
    hide FrameOf;
    var i :| 0 <= i < |s.taken| && s.taken[i].number != i + 1;
    assert Next(build, s, e).taken[i] == s.taken[i];
  }

  lemma DamageStays(build: Builder, s: State, e: Event)
    requires Bounded(s) && Damaged(s) && Enabled(s, e)
    ensures Damaged(Next(build, s, e))
  {
    hide Next, Lost, Missing, Consecutive, Bounded, Enabled;
    if Lost(s) {
      LostStays(build, s, e);
    } else if !Consecutive(s) {
      MisplacedStays(build, s, e);
    } else {
      var k: nat :| Missing(s, k);
      MissingStays(build, s, k, e);
    }
  }

  /** A message built late misses its place. */
  lemma LateBuildMisses(build: Builder, s: State, e: Event)
    requires NumbersInv(s) && Tidy(s) && Enabled(s, e) && e.Build? && Overtakes(s, e)
    ensures Missing(Next(build, s, e), CallerOf(s, e.thread).place)
  {
    var after, k := Next(build, s, e), CallerOf(s, e.thread).place;
    assert IsBounded(CallerOf(s, e.thread), s.stores);
    assert forall t :: t in after.callers && t != e.thread ==> t in s.callers && after.callers[t] == s.callers[t];
    assert forall t :: t in s.callers && t != e.thread && IsBusy(s.callers[t]) ==> s.callers[t].place != k;
    assert forall i :: 0 <= i < |s.taken| ==> s.taken[i].place != k;
  }

  lemma OvertakingDamages(build: Builder, s: State, e: Event)
    requires NumbersInv(s) && Tidy(s) && Enabled(s, e) && Overtakes(s, e)
    ensures Damaged(Next(build, s, e))
  {
    assert IsBounded(CallerOf(s, e.thread), s.stores) && IsTidy(CallerOf(s, e.thread)) by {
      assert e.thread in s.callers;
    }
    hide FrameOf, Lost, Missing;
    match e
    case Store(t) => StaleStoreLoses(build, s, t);
    case Build(_, _) => LateBuildMisses(build, s, e);
    case Acquire(_) => assert Next(build, s, e).taken[|s.taken|].number != |s.taken| + 1;
  }

  lemma {:induction false} DamageLasts(build: Builder, s: State, events: seq<Event>)
    requires NumbersInv(s) && Damaged(s) && Possible(build, s, events)
    ensures NumbersInv(Run(build, s, events)) && Damaged(Run(build, s, events))
    decreases |events|
  {
    hide Next, Damaged, Enabled, Unique, Accounted, Bounded;
    if events != [] {
      NumbersKeep(build, s, events[0]);
      DamageStays(build, s, events[0]);
      DamageLasts(build, Next(build, s, events[0]), events[1..]);
    }
  }

  /** When all calls are over, damage shows: some number is missing or out of place. */
  lemma DamageShows(s: State)
    requires NumbersInv(s) && Damaged(s) && AllIdle(s)
    ensures !Consecutive(s)
  {
    assert Busy(s) == {};
    if Lost(s) {
      assert s.taken[s.stores - 1].number < s.stores;
    } else if k: nat :| Missing(s, k) {
      assert s.taken[k - 1].number != k;
    }
  }

  lemma {:induction false} OrderlyFrom(build: Builder, s: State, events: seq<Event>)
    requires NumbersInv(s) && Tidy(s) && Possible(build, s, events)
    ensures Orderly(build, s, events) ==> Tidy(Run(build, s, events))
    ensures !Orderly(build, s, events) ==> NumbersInv(Run(build, s, events)) && Damaged(Run(build, s, events))
    decreases |events|
  {
    hide Next, Damaged, Enabled, Unique, Accounted, Bounded, Tidy, Overtakes;
    if events != [] {
      var t := Next(build, s, events[0]);
      NumbersKeep(build, s, events[0]);
      if Overtakes(s, events[0]) {
        OvertakingDamages(build, s, events[0]);
        DamageLasts(build, t, events[1..]);
      } else {
        TidyKeeps(build, s, events[0]);
        OrderlyFrom(build, t, events[1..]);
      }
    }
  }

  lemma InitialTidy()
    ensures NumbersInv(INITIAL) && Tidy(INITIAL)
  {
    assert Busy(INITIAL) == {};
  }

  /**
   The sequence numbers, exactly: once all calls of a history are over, the messages on the wire are
   numbered 1, 2, 3 and so on if and only if no call has overtaken another.
   */
  lemma NumberedInOrder(build: Builder, events: seq<Event>)
    requires Possible(build, INITIAL, events) && AllIdle(Run(build, INITIAL, events))
    ensures Consecutive(Run(build, INITIAL, events)) <==> Orderly(build, INITIAL, events)
  {
    InitialTidy();
    OrderlyFrom(build, INITIAL, events);
    var s := Run(build, INITIAL, events);
    if !Orderly(build, INITIAL, events) {
      DamageShows(s);
    }
  }

  /** The number a call returns, exactly: it is the one its message carried if and only if no other call has counted since. */
  lemma ReturnsItsNumber(build: Builder, events: seq<Event>, t: Thread)
    requires Possible(build, INITIAL, events) && Orderly(build, INITIAL, events)
    requires Enabled(Run(build, INITIAL, events), Return(t))
    ensures var s := Run(build, INITIAL, events);
            var (sent, returned) := Next(build, s, Return(t)).returned[|s.returned|];
            sent == returned <==> CallerOf(s, t).number == s.stores
  {
    InitialTidy();
    OrderlyFrom(build, INITIAL, events);
  }

  // ----- histories that happen -----

  /** The steps of one call with nothing between them; `n` is the length of its frame. */
  function CallOf(t: Thread, command: string, n: nat): seq<Event> {
    [Load(t)] + ([Store(t)] + ([Build(t, command)] + ([Acquire(t)] + ([Write(t, n)] + ([Release(t)] + ([Return(t)] + []))))))
  }

  /** The states an uninterrupted call goes through. */
  function Sending(build: Builder, s: State, t: Thread, command: string): State
    requires CallerOf(s, t).Idle?
  {
    var s1 := Next(build, s, Load(t));
    Next(build, Next(build, s1, Store(t)), Build(t, command))
  }

  lemma SendingIs(build: Builder, s: State, t: Thread, command: string)
    requires CallerOf(s, t).Idle? && s.counter == s.stores
    ensures var n, after := s.counter + 1, Sending(build, s, t, command);
            && CallerOf(after, t) == Built(build(n, command), n, n)
            && after.counter == after.stores == n && after.taken == s.taken && after.lock == s.lock && after.wire == s.wire
            && after.returned == s.returned
    ensures !Overtakes(Next(build, s, Load(t)), Store(t))
    ensures !Overtakes(Next(build, Next(build, s, Load(t)), Store(t)), Build(t, command))
  {
  }

  lemma SentAtOnce(build: Builder, s: State, t: Thread)
    requires CallerOf(s, t).Built? && s.lock.None?
    ensures var c := CallerOf(s, t);
            var n := |FrameOf(c.content)|;
            var s4 := Next(build, s, Acquire(t));
            && Enabled(s4, Write(t, n)) && var s5 := Next(build, s4, Write(t, n));
            && Enabled(s5, Release(t)) && var s6 := Next(build, s5, Release(t));
            && Enabled(s6, Return(t)) && var s7 := Next(build, s6, Return(t));
            && s7.wire == s.wire + FrameOf(c.content) && s7.counter == s.counter
            && s7.returned == s.returned + [(c.number, s.counter)]
  {
    hide FrameOf;
    var frame := FrameOf(CallerOf(s, t).content);
    assert frame[0..|frame|] == frame;
  }

  /** A call that nobody comes between: what `send_request` promises one caller. */
  lemma AloneIsInOrder(build: Builder, s: State, t: Thread, command: string)
    requires CallerOf(s, t).Idle? && s.lock.None? && s.counter == s.stores == |s.taken|
    ensures var n := s.counter + 1;
            var events := CallOf(t, command, |FrameOf(build(n, command))|);
            && Possible(build, s, events) && Orderly(build, s, events)
            && var after := Run(build, s, events);
            && after.wire == s.wire + FrameOf(build(n, command)) && after.counter == n
            && after.returned == s.returned + [(n, n)]
  {
    var n := |FrameOf(build(s.counter + 1, command))|;
    SendingIs(build, s, t, command);
    var s1 := Next(build, s, Load(t));
    var s2 := Next(build, s1, Store(t));
    var s3 := Next(build, s2, Build(t, command));
    assert s3 == Sending(build, s, t, command) && Enabled(s1, Store(t)) && Enabled(s2, Build(t, command));
    SentAtOnce(build, s3, t);
    var s4 := Next(build, s3, Acquire(t));
    var s5 := Next(build, s4, Write(t, n));
    var s6 := Next(build, s5, Release(t));
    assert Enabled(s3, Acquire(t)) && !Overtakes(s3, Acquire(t)) && Enabled(s, Load(t));
    hide FrameOf, Next, Enabled, Sending, Possible, Orderly, Run;
    NoOvertaking(s, Load(t));
    NoOvertaking(s4, Write(t, n));
    NoOvertaking(s5, Release(t));
    NoOvertaking(s6, Return(t));
    hide Overtakes;
    RunNone(build, Next(build, s6, Return(t)));
    RunNext(build, s6, Return(t), []);
    var e6 := [Return(t)] + [];
    RunNext(build, s5, Release(t), e6);
    var e5 := [Release(t)] + e6;
    RunNext(build, s4, Write(t, n), e5);
    var e4 := [Write(t, n)] + e5;
    RunNext(build, s3, Acquire(t), e4);
    var e3 := [Acquire(t)] + e4;
    RunNext(build, s2, Build(t, command), e3);
    var e2 := [Build(t, command)] + e3;
    RunNext(build, s1, Store(t), e2);
    RunNext(build, s, Load(t), [Store(t)] + e2);
  }

  lemma NoOvertaking(s: State, e: Event)
    requires Enabled(s, e) && (e.Load? || e.Write? || e.Release? || e.Return?)
    ensures !Overtakes(s, e)
  {
  }

  lemma RunNone(build: Builder, s: State)
    ensures Possible(build, s, []) && Orderly(build, s, []) && Run(build, s, []) == s
  {
  }

  lemma RunNext(build: Builder, s: State, e: Event, later: seq<Event>)
    requires Enabled(s, e) && Possible(build, Next(build, s, e), later)
    ensures Possible(build, s, [e] + later)
    ensures Run(build, s, [e] + later) == Run(build, Next(build, s, e), later)
    ensures !Overtakes(s, e) && Orderly(build, Next(build, s, e), later) ==> Orderly(build, s, [e] + later)
    ensures Overtakes(s, e) ==> !Orderly(build, s, [e] + later)
  {
    assert ([e] + later)[1..] == later;
  }

  /** Two calls that load the counter before either stores it send the same number. */
  lemma NumberShared(build: Builder, a: string, b: string)
    ensures var events := [Load(0)] + ([Load(1)] + ([Store(0)] + ([Store(1)] + ([Build(0, a)] + ([Build(1, b)] + [])))));
            && Possible(build, INITIAL, events)
            && var s := Run(build, INITIAL, events);
            CallerOf(s, 0) == Built(build(1, a), 1, 1) && CallerOf(s, 1) == Built(build(1, b), 1, 2)
  {
    var s1 := Next(build, INITIAL, Load(0));
    var s2 := Next(build, s1, Load(1));
    var s3 := Next(build, s2, Store(0));
    var s4 := Next(build, s3, Store(1));
    var s5 := Next(build, s4, Build(0, a));
    var s6 := Next(build, s5, Build(1, b));
    assert CallerOf(s6, 0) == Built(build(1, a), 1, 1) && CallerOf(s6, 1) == Built(build(1, b), 1, 2);
    hide Next, Enabled, Possible, Run;
    RunNone(build, s6);
    RunNext(build, s5, Build(1, b), []);
    RunNext(build, s4, Build(0, a), [Build(1, b)] + []);
    var e4 := [Build(0, a)] + ([Build(1, b)] + []);
    RunNext(build, s3, Store(1), e4);
    RunNext(build, s2, Store(0), [Store(1)] + e4);
    RunNext(build, s1, Load(1), [Store(0)] + ([Store(1)] + e4));
    RunNext(build, INITIAL, Load(0), [Load(1)] + ([Store(0)] + ([Store(1)] + e4)));
  }

  /** Two calls that count one after the other can take the lock the other way round: the first frame then carries 2. */
  lemma NumbersSwapped(build: Builder, a: string, b: string)
    ensures var later := [Load(1)] + ([Store(1)] + ([Build(1, b)] + ([Acquire(1)] + [])));
            var events := [Load(0)] + ([Store(0)] + ([Build(0, a)] + later));
            && Possible(build, INITIAL, events)
            && Run(build, INITIAL, events).taken == [Turn(1, build(2, b), 2, 2)]
  {
    var s1 := Next(build, INITIAL, Load(0));
    var s2 := Next(build, s1, Store(0));
    var s3 := Next(build, s2, Build(0, a));
    var s4 := Next(build, s3, Load(1));
    var s5 := Next(build, s4, Store(1));
    var s6 := Next(build, s5, Build(1, b));
    var s7 := Next(build, s6, Acquire(1));
    assert s7.taken == [Turn(1, build(2, b), 2, 2)];
    hide Next, Enabled, Possible, Run;
    RunNone(build, s7);
    RunNext(build, s6, Acquire(1), []);
    RunNext(build, s5, Build(1, b), [Acquire(1)] + []);
    RunNext(build, s4, Store(1), [Build(1, b)] + ([Acquire(1)] + []));
    var e3 := [Load(1)] + ([Store(1)] + ([Build(1, b)] + ([Acquire(1)] + [])));
    RunNext(build, s3, Load(1), [Store(1)] + ([Build(1, b)] + ([Acquire(1)] + [])));
    RunNext(build, s2, Build(0, a), e3);
    RunNext(build, s1, Store(0), [Build(0, a)] + e3);
    RunNext(build, INITIAL, Load(0), [Store(0)] + ([Build(0, a)] + e3));
  }
}
