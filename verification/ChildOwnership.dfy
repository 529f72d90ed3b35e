/**
 Who owns the `mpremote` child of a launch: the extension's session map and pending set, under any
 interleaving of launches, session starts and ends, and the extension's own shutdown.
 */
module ChildOwnership {
  import opened Wrappers

  type LaunchId = nat
  type SessionId = nat
  type Child = nat

  /**
   Where a launch is: waiting for the handshake; its wait settled but the resolver not yet resumed;
   inside its `startDebugging` call, with or without a session matched to it; or over.
   */
  datatype Phase = Waiting | Settled(ok: bool, settledPort: nat) | Starting(port: nat, matched: bool) | Over

  datatype Launch = Launch(child: Child, phase: Phase)

  /** What a starting session's configuration says: the launch marker, unless lost, and the connect port. */
  datatype Session = Session(id: SessionId, marker: Option<LaunchId>, debugpy: bool, port: Option<nat>)

  datatype Returned = Started | Refused | Threw

  datatype Event =
    | Spawn(launch: LaunchId, child: Child)
    | HandshakeSettles(launch: LaunchId, port: nat)
    | HandshakeFails(launch: LaunchId)
    | Resume(launch: LaunchId, cancelled: bool)
    | SessionStarts(session: Session)
    | StartReturns(launch: LaunchId, returned: Returned)
    | SessionEnds(id: SessionId)
    | Deactivate

  /** `subscribers` are the launches listening for session starts, oldest first. */
  datatype State = State(launches: map<LaunchId, Launch>, subscribers: seq<LaunchId>,
                         sessionChildren: map<SessionId, Child>, pendingChildren: set<Child>,
                         deactivated: bool, killed: set<Child>)

  const INITIAL := State(map[], [], map[], {}, false, {})

  predicate MatchesLaunch(session: Session, launch: LaunchId, port: nat) {
    session.marker == Some(launch) || (session.debugpy && session.port == Some(port))
  }

  predicate Hears(s: State, launch: LaunchId, session: Session) {
    launch in s.launches && s.launches[launch].phase.Starting? && MatchesLaunch(session, launch, s.launches[launch].phase.port)
  }

  function SetPhase(s: State, launch: LaunchId, phase: Phase): State
    requires launch in s.launches
  {
    s.(launches := s.launches[launch := s.launches[launch].(phase := phase)])
  }

  /** The listeners run one after the other; the first `n` of them have. */
  function Heard(s: State, session: Session, n: nat): State
    requires n <= |s.subscribers|
    ensures Heard(s, session, n).subscribers == s.subscribers
    ensures Heard(s, session, n).launches.Keys == s.launches.Keys
  {
    if n == 0 then s
    else
      var t, l := Heard(s, session, n - 1), s.subscribers[n - 1];
      if Hears(t, l, session) then Matched(t, l, session) else t
  }

  function Kill(s: State, child: Child): State {
    s.(killed := s.killed + {child})
  }

  function Without(subscribers: seq<LaunchId>, launch: LaunchId): seq<LaunchId> {
    if subscribers == [] then []
    else (if subscribers[0] == launch then [] else [subscribers[0]]) + Without(subscribers[1..], launch)
  }

  /** Whether the runtime can deliver the event in this state. Launches, children and sessions are new. */
  predicate Enabled(s: State, e: Event) {
    match e
    case Spawn(l, c) => l !in s.launches && forall m :: m in s.launches ==> s.launches[m].child != c
    case HandshakeSettles(l, _) => l in s.launches && s.launches[l].phase.Waiting?
    case HandshakeFails(l) => l in s.launches && s.launches[l].phase.Waiting?
    case Resume(l, _) => l in s.launches && s.launches[l].phase.Settled?
    case SessionStarts(session) => session.id !in s.sessionChildren
    case StartReturns(l, _) => l in s.launches && s.launches[l].phase.Starting?
    case SessionEnds(_) => true
    case Deactivate => true
  }

  function Next(s: State, e: Event): State
    requires Enabled(s, e)
  {
    match e
    case Spawn(l, c) =>
      s.(launches := s.launches[l := Launch(c, Waiting)], pendingChildren := s.pendingChildren + {c})
    case HandshakeSettles(l, port) => SetPhase(s, l, Settled(true, port))
    case HandshakeFails(l) => Kill(SetPhase(s, l, Settled(false, 0)), s.launches[l].child)
    case Resume(l, cancelled) =>
      var c, p := s.launches[l].child, s.launches[l].phase;
      var t := s.(pendingChildren := s.pendingChildren - {c});
      if !p.ok then SetPhase(t, l, Over)
      else if s.deactivated || cancelled then Kill(SetPhase(t, l, Over), c)
      else SetPhase(t, l, Starting(p.settledPort, false)).(subscribers := s.subscribers + [l])
    case SessionStarts(session) => Heard(s, session, |s.subscribers|)
    case StartReturns(l, returned) =>
      var c, matched := s.launches[l].child, s.launches[l].phase.matched;
      var t := SetPhase(s, l, Over).(subscribers := Without(s.subscribers, l));
      if !returned.Started? then Kill(t, c)
      else if !matched then t.(pendingChildren := t.pendingChildren + {c})
      else t
    case SessionEnds(id) =>
      if id in s.sessionChildren then
        Kill(s, s.sessionChildren[id]).(sessionChildren := s.sessionChildren - {id})
      else s
    case Deactivate =>
      State(s.launches, s.subscribers, map[], {}, true, s.killed + s.sessionChildren.Values + s.pendingChildren)
  }

  // ----- no child is lost -----

  predicate Owned(s: State, c: Child) {
    c in s.killed || c in s.pendingChildren || c in s.sessionChildren.Values
  }

  /**
   Where the child of a launch in a given phase can be. Of a launch whose session was seen, or that
   is over, that is all that can be said: its child may be a stray.
   */
  predicate Tracked(s: State, launch: Launch) {
    match launch.phase
    case Starting(_, false) => launch.child !in s.pendingChildren && launch.child !in s.sessionChildren.Values
    case Starting(_, true) => launch.child !in s.pendingChildren
    case Settled(false, _) => launch.child in s.killed && launch.child !in s.sessionChildren.Values
    case Over => true
    case _ => (launch.child in s.killed || launch.child in s.pendingChildren) && launch.child !in s.sessionChildren.Values
  }

  predicate AllTracked(s: State) {
    forall l :: l in s.launches ==> Tracked(s, s.launches[l])
  }

  predicate Distinct(s: State) {
    forall l, m :: l in s.launches && m in s.launches && l != m ==> s.launches[l].child != s.launches[m].child
  }

  ghost predicate Listening(s: State) {
    forall l :: l in s.subscribers <==> l in s.launches && s.launches[l].phase.Starting?
  }

  ghost predicate Inv(s: State) {
    AllTracked(s) && Distinct(s) && Listening(s) && s.pendingChildren + s.sessionChildren.Values <= Spawned(s)
  }

  function Spawned(s: State): set<Child> {
    set l | l in s.launches :: s.launches[l].child
  }

  /** The launches and their children are the same. */
  predicate SameChildren(s: State, t: State) {
    s.launches.Keys == t.launches.Keys && forall l :: l in s.launches ==> t.launches[l].child == s.launches[l].child
  }

  lemma SameChildrenKeep(s: State, t: State)
    requires SameChildren(s, t) && Distinct(s)
    ensures Spawned(t) == Spawned(s) && Distinct(t)
  {
  }

  lemma OthersDiffer(s: State, l: LaunchId)
    requires l in s.launches && Distinct(s)
    ensures s.launches[l].child in Spawned(s)
    ensures forall m :: m in s.launches && m != l ==> s.launches[m].child != s.launches[l].child
  {
  }

  /** The last of the first `n` listeners that recognises the session. */
  function LastHearing(s: State, session: Session, n: nat): (l: Option<LaunchId>)
    requires n <= |s.subscribers|
    ensures l.Some? ==> l.value in s.subscribers && Hears(s, l.value, session)
  {
    if n == 0 then None
    else if Hears(s, s.subscribers[n - 1], session) then Some(s.subscribers[n - 1])
    else LastHearing(s, session, n - 1)
  }

  /** The child is killed, or a session is recorded for it. */
  predicate Settles(s: State, c: Child) {
    c in s.killed || c in s.sessionChildren.Values
  }

  /** The launch is robbed: the session is taken by another launch, and its child had no owner. */
  predicate Robbed(s: State, session: Session, l: LaunchId) {
    && l in s.subscribers && Hears(s, l, session)
    && LastHearing(s, session, |s.subscribers|) != Some(l) && !Settles(s, s.launches[l].child)
  }

  /** Nobody owns the child of the launch, and the launch does not wait for its session any more. */
  predicate Stray(s: State, l: LaunchId) {
    && l in s.launches && !Owned(s, s.launches[l].child)
    && (s.launches[l].phase.Over? || (s.launches[l].phase.Starting? && s.launches[l].phase.matched))
  }

  /** A launch inside its `startDebugging` call whose session has not been seen, its child alive. */
  predicate InFlight(s: State, l: LaunchId) {
    l in s.launches && s.launches[l].phase.Starting? && !s.launches[l].phase.matched && s.launches[l].child !in s.killed
  }

  /** A child has an owner unless its launch is inside its own call, or it is a stray. */
  lemma OwnedUnless(s: State, l: LaunchId)
    requires Inv(s) && l in s.launches
    ensures Owned(s, s.launches[l].child) <==> !InFlight(s, l) && !Stray(s, l)
  {
    assert Tracked(s, s.launches[l]);
  }

  lemma SpawnKeeps(s: State, l: LaunchId, c: Child)
    requires Inv(s) && Enabled(s, Spawn(l, c))
    ensures Inv(Next(s, Spawn(l, c)))
  {
    var t := Next(s, Spawn(l, c));
    SpawnedNew(s, t, l, c);
    assert c !in Spawned(s);
    hide Distinct, Spawned, Heard;
    assert forall m :: m in t.launches ==> m == l || (m in s.launches && t.launches[m] == s.launches[m]);
  }

  lemma SpawnedNew(s: State, t: State, l: LaunchId, c: Child)
    requires Distinct(s) && Enabled(s, Spawn(l, c)) && t.launches == s.launches[l := Launch(c, Waiting)]
    ensures Spawned(t) == Spawned(s) + {c} && Distinct(t)
  {
    forall d
      ensures d in Spawned(t) <==> d in Spawned(s) || d == c
    {
      if d in Spawned(s) {
        var m :| m in s.launches && s.launches[m].child == d;
        assert t.launches[m].child == d;
      }
      assert t.launches[l].child == c;
    }
  }

  lemma SettleKeeps(s: State, e: Event)
    requires Inv(s) && Enabled(s, e) && (e.HandshakeSettles? || e.HandshakeFails?)
    ensures Inv(Next(s, e))
  {
    hide Distinct, Spawned, Heard;
    SameChildrenKeep(s, Next(s, e));
  }

  lemma ResumeKeeps(s: State, l: LaunchId, cancelled: bool)
    requires Inv(s) && Enabled(s, Resume(l, cancelled))
    ensures Inv(Next(s, Resume(l, cancelled)))
  {
    hide Distinct, Spawned, Heard;
    var t := Next(s, Resume(l, cancelled));
    SameChildrenKeep(s, t);
    OthersDiffer(s, l);
    assert forall m :: m in s.subscribers + [l] <==> m in s.subscribers || m == l;
  }

  lemma {:induction false} WithoutIs(subscribers: seq<LaunchId>, l: LaunchId)
    ensures forall m :: m in Without(subscribers, l) <==> m in subscribers && m != l
  {
    if subscribers != [] {
      WithoutIs(subscribers[1..], l);
      assert subscribers == [subscribers[0]] + subscribers[1..];
    }
  }

  lemma StartReturnsKeeps(s: State, l: LaunchId, returned: Returned)
    requires Inv(s) && Enabled(s, StartReturns(l, returned))
    ensures Inv(Next(s, StartReturns(l, returned)))
  {
    hide Distinct, Spawned, Without, Heard;
    var t := Next(s, StartReturns(l, returned));
    WithoutIs(s.subscribers, l);
    SameChildrenKeep(s, t);
    OthersDiffer(s, l);
  }

  lemma SessionEndsKeeps(s: State, id: SessionId)
    requires Inv(s)
    ensures Inv(Next(s, SessionEnds(id)))
  {
    var t := Next(s, SessionEnds(id));
    if id in s.sessionChildren {
      forall c
        ensures c in t.sessionChildren.Values ==> c in s.sessionChildren.Values
        ensures c in s.sessionChildren.Values ==> c in t.sessionChildren.Values || c == s.sessionChildren[id]
      {
        if c in t.sessionChildren.Values {
          var i :| i in t.sessionChildren && t.sessionChildren[i] == c;
          assert s.sessionChildren[i] == c;
        }
        if c in s.sessionChildren.Values {
          var i :| i in s.sessionChildren && s.sessionChildren[i] == c;
          assert i != id ==> i in t.sessionChildren && t.sessionChildren[i] == c;
        }
      }
    }
  }

  lemma DeactivateKeeps(s: State)
    requires Inv(s)
    ensures Inv(Next(s, Deactivate))
  {
  }

  /** What one listener does for a session it recognises. */
  function Matched(s: State, l: LaunchId, session: Session): State
    requires l in s.launches && s.launches[l].phase.Starting?
  {
    SetPhase(s, l, s.launches[l].phase.(matched := true))
      .(sessionChildren := s.sessionChildren[session.id := s.launches[l].child])
  }

  /** A launch whose session has been seen. */
  function Seen(launch: Launch): Launch
    requires launch.phase.Starting?
  {
    launch.(phase := launch.phase.(matched := true))
  }

  /** The launches once the first `n` listeners have run: those that recognise the session are matched. */
  predicate SeenBy(s: State, session: Session, n: nat, launches: map<LaunchId, Launch>)
    requires n <= |s.subscribers|
  {
    && launches.Keys == s.launches.Keys
    && forall l :: l in s.launches ==>
         launches[l] == if l in s.subscribers[..n] && Hears(s, l, session) then Seen(s.launches[l]) else s.launches[l]
  }

  lemma SeenByNext(s: State, session: Session, n: nat, launches: map<LaunchId, Launch>)
    requires n < |s.subscribers| && SeenBy(s, session, n, launches)
    ensures var l := s.subscribers[n];
            SeenBy(s, session, n + 1, if Hears(s, l, session) then launches[l := Seen(launches[l])] else launches)
  {
    assert s.subscribers[..n + 1] == s.subscribers[..n] + [s.subscribers[n]];
  }

  lemma HearsStill(s: State, session: Session, n: nat, t: State, l: LaunchId)
    requires n <= |s.subscribers| && SeenBy(s, session, n, t.launches)
    ensures Hears(t, l, session) <==> Hears(s, l, session)
    ensures l in s.launches ==> t.launches[l].child == s.launches[l].child
  {
  }

  /**
   What the listeners do, however many recognise the session: all of those are matched, and the last
   one of them has its child recorded.
   */
  lemma {:induction false} HeardIs(s: State, session: Session, n: nat)
    requires n <= |s.subscribers|
    ensures var t, last := Heard(s, session, n), LastHearing(s, session, n);
            && t == s.(launches := t.launches, sessionChildren := t.sessionChildren)
            && t.sessionChildren == (if last.None? then s.sessionChildren
                                     else s.sessionChildren[session.id := s.launches[last.value].child])
            && SeenBy(s, session, n, t.launches)
  {
    hide SeenBy, Hears;
    if n == 0 {
      NoneSeen(s, session);
    } else {
      var t, l := Heard(s, session, n - 1), s.subscribers[n - 1];
      HeardIs(s, session, n - 1);
      HearsStill(s, session, n - 1, t, l);
      SeenByNext(s, session, n - 1, t.launches);
      if Hears(s, l, session) {
        HearsMeans(s, l, session);
        HearsMeans(t, l, session);
        assert Matched(t, l, session).launches == t.launches[l := Seen(t.launches[l])];
      }
    }
  }

  lemma HearsMeans(s: State, l: LaunchId, session: Session)
    requires Hears(s, l, session)
    ensures l in s.launches && s.launches[l].phase.Starting?
  {
  }

  lemma NoneSeen(s: State, session: Session)
    ensures SeenBy(s, session, 0, s.launches)
  {
  }

  lemma ValuesMore(m: map<SessionId, Child>, id: SessionId, c: Child)
    requires id !in m
    ensures m[id := c].Values == m.Values + {c}
  {
    forall d
      ensures d in m[id := c].Values <==> d in m.Values || d == c
    {
      if d in m.Values {
        var i :| i in m && m[i] == d;
        assert m[id := c][i] == d;
      }
      assert m[id := c][id] == c;
    }
  }

  lemma AllHeard(s: State)
    ensures s.subscribers[..|s.subscribers|] == s.subscribers
  {
  }

  /** The state behind the listeners, for a session id that is not in use. */
  lemma SessionHeard(s: State, session: Session)
    requires session.id !in s.sessionChildren
    ensures var t, last := Next(s, SessionStarts(session)), LastHearing(s, session, |s.subscribers|);
            && t == s.(launches := t.launches, sessionChildren := t.sessionChildren)
            && SameChildren(s, t)
            && t.sessionChildren.Values
               == s.sessionChildren.Values + (if last.None? then {} else {s.launches[last.value].child})
            && forall l :: l in s.launches ==>
                 && t.launches[l] == (if l in s.subscribers && Hears(s, l, session) then Seen(s.launches[l]) else s.launches[l])
                 && (t.launches[l].phase.Starting? <==> s.launches[l].phase.Starting?)
  {
    var last := LastHearing(s, session, |s.subscribers|);
    HeardIs(s, session, |s.subscribers|);
    AllHeard(s);
    hide Heard, LastHearing, Hears;
    if last.Some? {
      ValuesMore(s.sessionChildren, session.id, s.launches[last.value].child);
    }
  }

  /** Of the launches that recognise a session, exactly the last one and those that had an owner come out with one. */
  lemma HeardOwner(s: State, session: Session, l: LaunchId)
    requires Inv(s) && session.id !in s.sessionChildren && l in s.subscribers && Hears(s, l, session)
    ensures Settles(Next(s, SessionStarts(session)), s.launches[l].child)
       <==> LastHearing(s, session, |s.subscribers|) == Some(l) || Settles(s, s.launches[l].child)
  {
    SessionHeard(s, session);
    OthersDiffer(s, l);
    hide Next, LastHearing, AllTracked, Listening, Spawned, Distinct;
  }

  lemma TrackedHeard(s: State, session: Session, l: LaunchId)
    requires Inv(s) && session.id !in s.sessionChildren && l in s.launches
    ensures var t := Next(s, SessionStarts(session)); l in t.launches && Tracked(t, t.launches[l])
  {
    SessionHeard(s, session);
    OthersDiffer(s, l);
    assert Tracked(s, s.launches[l]);
    hide Next, LastHearing, Spawned, Distinct, Heard, AllTracked, Listening;
  }

  lemma SessionStartsKeeps(s: State, session: Session)
    requires Inv(s) && session.id !in s.sessionChildren
    ensures Inv(Next(s, SessionStarts(session)))
  {
    var t, last := Next(s, SessionStarts(session)), LastHearing(s, session, |s.subscribers|);
    SessionHeard(s, session);
    SameChildrenKeep(s, t);
    if last.Some? {
      HearsMeans(s, last.value, session);
      OthersDiffer(s, last.value);
    }
    forall l | l in s.launches { TrackedHeard(s, session, l); }
    hide Next, LastHearing, Spawned, Distinct, Heard, Tracked, Hears;
    StillListening(s, t, session);
  }

  lemma StillListening(s: State, t: State, session: Session)
    requires Listening(s) && t.subscribers == s.subscribers && SameChildren(s, t)
    requires forall l :: l in s.launches ==> (t.launches[l].phase.Starting? <==> s.launches[l].phase.Starting?)
    ensures Listening(t)
  {
  }

  lemma NextKeeps(s: State, e: Event)
    requires Inv(s) && Enabled(s, e)
    ensures Inv(Next(s, e))
  {
    hide Inv;
    match e
    case Spawn(l, c) => SpawnKeeps(s, l, c);
    case HandshakeSettles(_, _) => SettleKeeps(s, e);
    case HandshakeFails(_) => SettleKeeps(s, e);
    case Resume(l, cancelled) => ResumeKeeps(s, l, cancelled);
    case SessionStarts(session) => SessionStartsKeeps(s, session);
    case StartReturns(l, returned) => StartReturnsKeeps(s, l, returned);
    case SessionEnds(id) => SessionEndsKeeps(s, id);
    case Deactivate => DeactivateKeeps(s);
  }

  // ----- how a child becomes a stray -----

  /** The event takes the session of the launch away from it. */
  predicate Robs(s: State, e: Event, l: LaunchId) {
    e.SessionStarts? && Robbed(s, e.session, l)
  }

  /** The event gives a stray an owner: the launch is the last to recognise a session, or its call fails. */
  predicate Saves(s: State, e: Event, l: LaunchId) {
    match e
    case SessionStarts(session) => LastHearing(s, session, |s.subscribers|) == Some(l)
    case StartReturns(m, returned) => m == l && !returned.Started?
    case _ => false
  }

  lemma SessionStrays(s: State, session: Session, l: LaunchId)
    requires Inv(s) && session.id !in s.sessionChildren
    ensures var e := SessionStarts(session);
            Stray(Next(s, e), l) <==> Robs(s, e, l) || (Stray(s, l) && !Saves(s, e, l))
  {
    SessionHeard(s, session);
    if l in s.launches {
      OthersDiffer(s, l);
      assert Tracked(s, s.launches[l]);
      assert l in s.subscribers <==> s.launches[l].phase.Starting?;
    }
    hide Next, LastHearing, Spawned, Distinct, Heard, AllTracked, Listening;
  }

  lemma EndingStrays(s: State, id: SessionId, l: LaunchId)
    requires Inv(s)
    ensures Stray(Next(s, SessionEnds(id)), l) <==> Stray(s, l)
  {
    var t := Next(s, SessionEnds(id));
    if id in s.sessionChildren {
      forall c
        ensures c in s.sessionChildren.Values <==> c in t.sessionChildren.Values || c == s.sessionChildren[id]
      {
        if c in t.sessionChildren.Values {
          var i :| i in t.sessionChildren && t.sessionChildren[i] == c;
          assert s.sessionChildren[i] == c;
        }
        if c in s.sessionChildren.Values {
          var i :| i in s.sessionChildren && s.sessionChildren[i] == c;
          assert i != id ==> i in t.sessionChildren && t.sessionChildren[i] == c;
        }
      }
    }
  }

  /** A child is a stray behind an event exactly when the event robs its launch, or it was one and the event does not save it. */
  lemma StraysExactly(s: State, e: Event, l: LaunchId)
    requires Inv(s) && Enabled(s, e)
    ensures Stray(Next(s, e), l) <==> Robs(s, e, l) || (Stray(s, l) && !Saves(s, e, l))
  {
    if l in s.launches {
      OthersDiffer(s, l);
      assert Tracked(s, s.launches[l]);
    }
    hide Heard, Without, Distinct, Spawned, AllTracked, Listening, LastHearing;
    match e
    case SessionStarts(session) => SessionStrays(s, session, l);
    case SessionEnds(id) => EndingStrays(s, id, l);
    case _ =>
  }

  /** A history the runtime can produce. */
  predicate Possible(s: State, events: seq<Event>)
    decreases |events|
  {
    events == [] || (Enabled(s, events[0]) && Possible(Next(s, events[0]), events[1..]))
  }

  function Run(s: State, events: seq<Event>): State
    requires Possible(s, events)
    decreases |events|
  {
    if events == [] then s else Run(Next(s, events[0]), events[1..])
  }

  /** Every history keeps the invariant. */
  lemma {:induction false} RunKeeps(s: State, events: seq<Event>)
    requires Inv(s) && Possible(s, events)
    ensures Inv(Run(s, events))
    decreases |events|
  {
    hide Inv, Next, Enabled;
    if events != [] {
      NextKeeps(s, events[0]);
      RunKeeps(Next(s, events[0]), events[1..]);
    }
  }

  /** No event of the history saves the launch's child. */
  predicate NeverSaved(s: State, events: seq<Event>, l: LaunchId)
    requires Possible(s, events)
    decreases |events|
  {
    events == [] || (!Saves(s, events[0], l) && NeverSaved(Next(s, events[0]), events[1..], l))
  }

  /** At some point of the history the launch is robbed of its session, and its child is not saved from then on. */
  predicate RobbedForGood(s: State, events: seq<Event>, l: LaunchId)
    requires Possible(s, events)
    decreases |events|
  {
    events != []
    && ((Robs(s, events[0], l) && NeverSaved(Next(s, events[0]), events[1..], l))
        || RobbedForGood(Next(s, events[0]), events[1..], l))
  }

  lemma {:induction false} StraysThrough(s: State, events: seq<Event>, l: LaunchId)
    requires Inv(s) && Possible(s, events)
    ensures Stray(Run(s, events), l) <==> RobbedForGood(s, events, l) || (Stray(s, l) && NeverSaved(s, events, l))
    decreases |events|
  {
    hide Inv, Next, Enabled, Stray, Robs, Saves;
    if events != [] {
      NextKeeps(s, events[0]);
      StraysExactly(s, events[0], l);
      StraysThrough(Next(s, events[0]), events[1..], l);
    }
  }

  /**
   Over every history: a child that was spawned is killed, pending or with a session, except exactly
   when its launch is inside its own call with no session seen, or was robbed of its session and its
   child not saved since.
   */
  lemma NoChildLost(events: seq<Event>, l: LaunchId)
    requires Possible(INITIAL, events) && l in Run(INITIAL, events).launches
    ensures var s := Run(INITIAL, events);
            Owned(s, s.launches[l].child) <==> !InFlight(s, l) && !RobbedForGood(INITIAL, events, l)
  {
    RunKeeps(INITIAL, events);
    OwnedUnless(Run(INITIAL, events), l);
    StraysThrough(INITIAL, events, l);
  }

  // ----- histories from the start, event by event -----

  lemma PossibleNext(s: State, e: Event, later: seq<Event>)
    requires Enabled(s, e) && Possible(Next(s, e), later)
    ensures Possible(s, [e] + later) && Run(s, [e] + later) == Run(Next(s, e), later)
  {
    assert ([e] + later)[1..] == later;
  }

  /** The state that a launch leads to by the time of its `startDebugging` call. */
  function Launched(s: State, l: LaunchId, c: Child, port: nat): State {
    s.(launches := s.launches[l := Launch(c, Starting(port, false))], subscribers := s.subscribers + [l])
  }

  lemma LaunchHappens(s: State, l: LaunchId, c: Child, port: nat, later: seq<Event>)
    requires Enabled(s, Spawn(l, c)) && c !in s.pendingChildren && !s.deactivated
    requires Possible(Launched(s, l, c, port), later)
    ensures var events := [Spawn(l, c)] + ([HandshakeSettles(l, port)] + ([Resume(l, false)] + later));
            Possible(s, events) && Run(s, events) == Run(Launched(s, l, c, port), later)
  {
    var t := Next(s, Spawn(l, c));
    var u := Next(t, HandshakeSettles(l, port));
    assert u.launches == s.launches[l := Launch(c, Settled(true, port))];
    assert u.pendingChildren - {c} == s.pendingChildren;
    assert Next(u, Resume(l, false)).launches == Launched(s, l, c, port).launches;
    assert Next(u, Resume(l, false)) == Launched(s, l, c, port);
    hide Next, Launched, Run, Possible;
    PossibleNext(u, Resume(l, false), later);
    PossibleNext(t, HandshakeSettles(l, port), [Resume(l, false)] + later);
    PossibleNext(s, Spawn(l, c), [HandshakeSettles(l, port)] + ([Resume(l, false)] + later));
  }

  // ----- what the collections hold, and what a child is killed for -----

  /** The session map holds the child of the launch under this id. */
  predicate OwnEntry(s: State, id: SessionId, l: LaunchId) {
    l in s.launches && id in s.sessionChildren && s.sessionChildren[id] == s.launches[l].child
  }

  /** The event has the session recorded for the launch: it is the last to recognise it. */
  predicate Records(s: State, e: Event, id: SessionId, l: LaunchId) {
    e.SessionStarts? && e.session.id == id && LastHearing(s, e.session, |s.subscribers|) == Some(l)
  }

  predicate Forgets(e: Event, id: SessionId) {
    e == SessionEnds(id) || e == Deactivate
  }

  lemma EntryAfterSession(s: State, session: Session, id: SessionId, l: LaunchId)
    requires Inv(s) && session.id !in s.sessionChildren
    ensures var e := SessionStarts(session);
            OwnEntry(Next(s, e), id, l) <==> Records(s, e, id, l) || OwnEntry(s, id, l)
  {
    HeardIs(s, session, |s.subscribers|);
    SessionHeard(s, session);
    if l in s.launches { OthersDiffer(s, l); }
    hide Heard, LastHearing, Hears, AllTracked, Listening, Distinct;
  }

  /** An entry is there behind an event exactly when the event makes it, or it was there and the session goes on. */
  lemma EntryAfter(s: State, e: Event, id: SessionId, l: LaunchId)
    requires Inv(s) && Enabled(s, e)
    ensures OwnEntry(Next(s, e), id, l) <==> Records(s, e, id, l) || (OwnEntry(s, id, l) && !Forgets(e, id))
  {
    assert id in s.sessionChildren ==> s.sessionChildren[id] in s.sessionChildren.Values;
    assert s.sessionChildren.Values <= Spawned(s);
    hide Heard, LastHearing, Without, AllTracked, Listening, Distinct;
    match e
    case SessionStarts(session) => EntryAfterSession(s, session, id, l);
    case _ =>
  }

  /** No event of the history ends the session or the extension. */
  predicate NeverForgotten(events: seq<Event>, id: SessionId) {
    forall k :: 0 <= k < |events| ==> !Forgets(events[k], id)
  }

  /** At some point of the history the session is recorded for the launch, and it goes on from then. */
  predicate Recorded(s: State, events: seq<Event>, id: SessionId, l: LaunchId)
    requires Possible(s, events)
    decreases |events|
  {
    events != []
    && ((Records(s, events[0], id, l) && NeverForgotten(events[1..], id))
        || Recorded(Next(s, events[0]), events[1..], id, l))
  }

  lemma ForgottenNext(events: seq<Event>, id: SessionId)
    requires events != []
    ensures NeverForgotten(events, id) <==> !Forgets(events[0], id) && NeverForgotten(events[1..], id)
  {
    if !Forgets(events[0], id) && NeverForgotten(events[1..], id) {
      assert forall k :: 1 <= k < |events| ==> events[k] == events[1..][k - 1];
    }
  }

  lemma {:induction false} EntryThrough(s: State, events: seq<Event>, id: SessionId, l: LaunchId)
    requires Inv(s) && Possible(s, events)
    ensures OwnEntry(Run(s, events), id, l)
       <==> Recorded(s, events, id, l) || (OwnEntry(s, id, l) && NeverForgotten(events, id))
    decreases |events|
  {
    hide Next, Inv, OwnEntry, Records, Enabled, NeverForgotten, Forgets;
    if events == [] {
      NothingForgotten(id);
    } else {
      NextKeeps(s, events[0]);
      EntryAfter(s, events[0], id, l);
      ForgottenNext(events, id);
      EntryThrough(Next(s, events[0]), events[1..], id, l);
    }
  }

  lemma NothingForgotten(id: SessionId)
    ensures NeverForgotten([], id)
  {
  }

  /**
   Over every history, the session map holds a launch's child under an id exactly when a session of
   that id was recorded for the launch, and neither it nor the extension has ended since.
   */
  lemma EntryExactly(events: seq<Event>, id: SessionId, l: LaunchId)
    requires Possible(INITIAL, events)
    ensures OwnEntry(Run(INITIAL, events), id, l) <==> Recorded(INITIAL, events, id, l)
  {
    EntryThrough(INITIAL, events, id, l);
  }

  /** In the history from `s` on a session with this id starts while the launch listens, and the launch recognises it. */
  predicate Recognised(s: State, events: seq<Event>, id: SessionId, l: LaunchId)
    requires Possible(s, events)
    decreases |events|
  {
    events != []
    && ((events[0].SessionStarts? && events[0].session.id == id && Hears(s, l, events[0].session))
        || Recognised(Next(s, events[0]), events[1..], id, l))
  }

  lemma {:induction false} RecordedIsRecognised(s: State, events: seq<Event>, id: SessionId, l: LaunchId)
    requires Possible(s, events) && Recorded(s, events, id, l)
    ensures Recognised(s, events, id, l)
    decreases |events|
  {
    hide Next, Hears, LastHearing, NeverForgotten;
    if !Records(s, events[0], id, l) {
      RecordedIsRecognised(Next(s, events[0]), events[1..], id, l);
    }
  }

  /** An entry of the session map comes from a session of that id that the launch recognised. */
  lemma EntryFromSession(events: seq<Event>, id: SessionId, l: LaunchId)
    requires Possible(INITIAL, events) && OwnEntry(Run(INITIAL, events), id, l)
    ensures Recognised(INITIAL, events, id, l)
  {
    EntryExactly(events, id, l);
    RecordedIsRecognised(INITIAL, events, id, l);
  }

  /**
   What a living child is killed for: its own launch failing, refused, cancelled or too late; the end
   of the session recorded for it; the shutdown, unless nobody owns it.
   */
  predicate IsCause(events: seq<Event>, e: Event, l: LaunchId)
    requires Possible(INITIAL, events)
  {
    var s := Run(INITIAL, events);
    match e
    case HandshakeFails(m) => m == l
    case Resume(m, cancelled) => m == l && (s.deactivated || cancelled)
    case StartReturns(m, returned) => m == l && !returned.Started?
    case SessionEnds(id) => Recorded(INITIAL, events, id, l)
    case Deactivate => !InFlight(s, l) && !RobbedForGood(INITIAL, events, l)
    case _ => false
  }

  lemma KilledAfter(s: State, e: Event, l: LaunchId)
    requires Inv(s) && Enabled(s, e) && l in s.launches && s.launches[l].child !in s.killed
    ensures var c := s.launches[l].child;
            c in Next(s, e).killed
            <==> match e
                 case HandshakeFails(m) => m == l
                 case Resume(m, cancelled) => m == l && (s.deactivated || cancelled)
                 case StartReturns(m, returned) => m == l && !returned.Started?
                 case SessionEnds(id) => OwnEntry(s, id, l)
                 case Deactivate => Owned(s, c)
                 case _ => false
  {
    OthersDiffer(s, l);
    assert Tracked(s, s.launches[l]);
    if e.SessionStarts? {
      SessionHeard(s, e.session);
    }
    hide Distinct, Without, Heard, LastHearing, Spawned, AllTracked, Listening;
  }

  /** Over every history, a living child is killed by an event exactly when the event is a cause for it. */
  lemma KilledForCause(events: seq<Event>, e: Event, l: LaunchId)
    requires Possible(INITIAL, events)
    requires var s := Run(INITIAL, events); Enabled(s, e) && l in s.launches && s.launches[l].child !in s.killed
    ensures var s := Run(INITIAL, events);
            s.launches[l].child in Next(s, e).killed <==> IsCause(events, e, l)
  {
    var s := Run(INITIAL, events);
    RunKeeps(INITIAL, events);
    NoChildLost(events, l);
    if e.SessionEnds? { EntryExactly(events, e.id, l); }
    hide Run, Possible, Next, Inv, InFlight, RobbedForGood, Recorded, Owned;
    KilledAfter(s, e, l);
  }

  /** The end of a session kills the child it is recorded for, and drops the entry. */
  lemma SessionEndKills(events: seq<Event>, id: SessionId, l: LaunchId)
    requires Possible(INITIAL, events) && OwnEntry(Run(INITIAL, events), id, l)
    ensures var s, t := Run(INITIAL, events), Next(Run(INITIAL, events), SessionEnds(id));
            s.launches[l].child in t.killed && id !in t.sessionChildren
  {
  }

  /**
   A child is pending behind an event exactly when it was just spawned, or its call returned without a
   session seen, or it was pending and neither its wait nor the extension has ended.
   */
  lemma PendingAfter(s: State, e: Event, l: LaunchId)
    requires Inv(s) && Enabled(s, e) && l in Next(s, e).launches
    ensures var t := Next(s, e);
            t.launches[l].child in t.pendingChildren
            <==> (e.Spawn? && e.launch == l)
                 || (e.StartReturns? && e.launch == l && e.returned.Started? && !s.launches[l].phase.matched)
                 || (l in s.launches && s.launches[l].child in s.pendingChildren
                     && !(e.Resume? && e.launch == l) && e != Deactivate)
  {
    if l in s.launches { OthersDiffer(s, l); }
    if e.SessionStarts? {
      SessionHeard(s, e.session);
    }
    assert s.pendingChildren <= Spawned(s);
    hide Distinct, Without, Heard, LastHearing, AllTracked, Listening;
  }

  /** A launch is in its call behind an event exactly when the event lets it attach, or it was and has not returned. */
  lemma StartingAfter(s: State, e: Event, l: LaunchId)
    requires Inv(s) && Enabled(s, e)
    ensures IsStarting(Next(s, e), l)
       <==> (e == Resume(l, false) && s.launches[l].phase.ok && !s.deactivated)
            || (IsStarting(s, l) && !(e.StartReturns? && e.launch == l))
  {
    if e.SessionStarts? {
      SessionHeard(s, e.session);
    }
    hide Heard, LastHearing, Without;
  }

  /**
   A launch in its call recognises a session by its marker, whatever else it says; without the marker,
   only a debugpy session on its port.
   */
  lemma RecognisesBy(s: State, l: LaunchId, id: SessionId, debugpy: bool, port: Option<nat>, other: LaunchId)
    requires IsStarting(s, l) && other != l
    ensures Hears(s, l, Session(id, Some(l), debugpy, port))
    ensures Hears(s, l, Session(id, None, true, Some(s.launches[l].phase.port)))
    ensures Hears(s, l, Session(id, Some(other), true, Some(s.launches[l].phase.port)))
    ensures !Hears(s, l, Session(id, Some(other), false, port)) && !Hears(s, l, Session(id, None, false, port))
    ensures port != Some(s.launches[l].phase.port) ==>
              !Hears(s, l, Session(id, Some(other), debugpy, port)) && !Hears(s, l, Session(id, None, debugpy, port))
  {
  }

  /** The extension is shut down exactly from the first `deactivate` on. */
  lemma {:induction false} DeactivatedOnce(s: State, events: seq<Event>)
    requires Possible(s, events)
    ensures Run(s, events).deactivated <==> s.deactivated || Deactivate in events
    decreases |events|
  {
    hide Heard;
    if events != [] {
      if events[0].SessionStarts? { SessionHeard(s, events[0].session); }
      DeactivatedOnce(Next(s, events[0]), events[1..]);
      assert Deactivate in events <==> events[0] == Deactivate || Deactivate in events[1..];
    }
  }

  // ----- shutdown -----

  predicate AllKilled(s: State) {
    forall l :: l in s.launches ==> s.launches[l].child in s.killed
  }

  /**
   `deactivate` leaves a child alive exactly when its `startDebugging` call is in flight, unmatched, or
   when its launch was robbed of its session and it was not saved since.
   */
  lemma DeactivateKills(events: seq<Event>)
    requires Possible(INITIAL, events)
    ensures var s := Run(INITIAL, events);
            AllKilled(Next(s, Deactivate))
            <==> forall l :: l in s.launches ==> !InFlight(s, l) && !RobbedForGood(INITIAL, events, l)
  {
    var s := Run(INITIAL, events);
    forall l | l in s.launches { NoChildLost(events, l); }
    hide Run, Possible, InFlight, RobbedForGood;
    var t := Next(s, Deactivate);
    assert forall l :: l in s.launches ==> (s.launches[l].child in t.killed <==> Owned(s, s.launches[l].child));
  }

  /** The call that a history leaves in flight at shutdown happens: one launch is enough. */
  lemma InFlightSurvives(l: LaunchId, c: Child, port: nat)
    ensures var events := [Spawn(l, c)] + ([HandshakeSettles(l, port)] + ([Resume(l, false)] + []));
            Possible(INITIAL, events) && !AllKilled(Next(Run(INITIAL, events), Deactivate))
  {
    LaunchHappens(INITIAL, l, c, port, []);
    var s := Launched(INITIAL, l, c, port);
    assert Run(s, []) == s;
    var t := Next(s, Deactivate);
    assert l in t.launches && t.launches[l].child == c && c !in t.killed;
    assert !AllKilled(t);
    hide Next, Run, Possible, Launched;
  }

  predicate IsOver(s: State, l: LaunchId) {
    l in s.launches && s.launches[l].phase.Over?
  }

  predicate IsKilled(s: State, l: LaunchId) {
    l in s.launches && s.launches[l].child in s.killed
  }

  predicate IsStarting(s: State, l: LaunchId) {
    l in s.launches && s.launches[l].phase.Starting?
  }

  /**
   After shutdown no launch gets as far as attaching: a launch whose handshake settles later has its
   child killed instead, and only the calls already in flight can still be in one.
   */
  lemma {:induction false} NoneAttachesLater(s: State, events: seq<Event>, l: LaunchId)
    requires Inv(s) && s.deactivated && Possible(s, events) && !IsStarting(s, l)
    ensures var t := Run(s, events);
            t.deactivated && !IsStarting(t, l) && (IsOver(t, l) && !IsOver(s, l) ==> IsKilled(t, l))
    decreases |events|
  {
    hide Next, Inv, Enabled, IsStarting, IsOver, IsKilled;
    if events != [] {
      var t := Next(s, events[0]);
      NextKeeps(s, events[0]);
      StaysOut(s, events[0], l);
      NoneAttachesLater(t, events[1..], l);
      if IsKilled(t, l) {
        KilledStays(t, events[1..], l);
      }
    }
  }

  lemma StaysOut(s: State, e: Event, l: LaunchId)
    requires Inv(s) && s.deactivated && Enabled(s, e) && !IsStarting(s, l)
    ensures var t := Next(s, e);
            t.deactivated && !IsStarting(t, l) && (IsOver(t, l) && !IsOver(s, l) ==> IsKilled(t, l))
  {
    if e.SessionStarts? {
      SessionHeard(s, e.session);
    }
    hide Heard, LastHearing;
  }

  /** A killed child stays killed. */
  lemma {:induction false} KilledStays(s: State, events: seq<Event>, l: LaunchId)
    requires Possible(s, events) && IsKilled(s, l)
    ensures IsKilled(Run(s, events), l)
    decreases |events|
  {
    hide Heard, LastHearing;
    if events != [] {
      if events[0].SessionStarts? {
        SessionHeard(s, events[0].session);
      }
      KilledStays(Next(s, events[0]), events[1..], l);
    }
  }

  // ----- how children survive -----

  /** Two launches on one port, and a session that carries the first one's marker, which the second takes by the port. */
  function SharedPort(port: nat, later: seq<Event>): seq<Event> {
    var session := SessionStarts(Session(7, Some(0), true, Some(port)));
    [Spawn(0, 10)] + ([HandshakeSettles(0, port)] + ([Resume(0, false)] +
    ([Spawn(1, 11)] + ([HandshakeSettles(1, port)] + ([Resume(1, false)] + ([session] + later))))))
  }

  /** The state that leads to. */
  function Shared(port: nat): State {
    State(map[0 := Launch(10, Starting(port, true)), 1 := Launch(11, Starting(port, true))], [0, 1], map[7 := 11], {}, false, {})
  }

  lemma SharedPortHappens(port: nat, later: seq<Event>)
    requires Possible(Shared(port), later)
    ensures Possible(INITIAL, SharedPort(port, later))
    ensures Run(INITIAL, SharedPort(port, later)) == Run(Shared(port), later)
  {
    var e := SessionStarts(Session(7, Some(0), true, Some(port)));
    var one := Launched(INITIAL, 0, 10, port);
    var two := Launched(one, 1, 11, port);
    SessionShared(port);
    PossibleNext(two, e, later);
    assert Enabled(INITIAL, Spawn(0, 10)) && Enabled(one, Spawn(1, 11));
    hide Next, Run, Possible, Launched, Shared;
    LaunchHappens(one, 1, 11, port, [e] + later);
    LaunchHappens(INITIAL, 0, 10, port, [Spawn(1, 11)] + ([HandshakeSettles(1, port)] + ([Resume(1, false)] + ([e] + later))));
  }

  lemma SessionShared(port: nat)
    ensures var session := Session(7, Some(0), true, Some(port));
            var two := Launched(Launched(INITIAL, 0, 10, port), 1, 11, port);
            Enabled(two, SessionStarts(session)) && Next(two, SessionStarts(session)) == Shared(port)
  {
    var session := Session(7, Some(0), true, Some(port));
    var two := Launched(Launched(INITIAL, 0, 10, port), 1, 11, port);
    assert two.launches == map[0 := Launch(10, Starting(port, false)), 1 := Launch(11, Starting(port, false))];
    assert two.subscribers == [0, 1] && Hears(two, 0, session) && Hears(two, 1, session);
    var one := Heard(two, session, 1);
    assert Heard(two, session, 0) == two;
    assert one.launches == map[0 := Launch(10, Starting(port, true)), 1 := Launch(11, Starting(port, false))];
    assert one.sessionChildren == map[7 := 10];
    assert Hears(one, 1, session);
    var both := Heard(two, session, 2);
    assert both.launches == Shared(port).launches && both.sessionChildren == map[7 := 11];
  }

  lemma PossibleNone(s: State)
    ensures Possible(s, []) && Run(s, []) == s
  {
  }

  /** When the first one's call returns, its child is nobody's. */
  lemma SharedPortLosesChild(port: nat)
    ensures var events := SharedPort(port, [StartReturns(0, Started)] + []);
            Possible(INITIAL, events) && IsOver(Run(INITIAL, events), 0) && Stray(Run(INITIAL, events), 0)
  {
    var t := Next(Shared(port), StartReturns(0, Started));
    assert IsOver(t, 0) && Stray(t, 0);
    PossibleNone(t);
    PossibleNext(Shared(port), StartReturns(0, Started), []);
    hide Run, Possible, SharedPort, Shared;
    SharedPortHappens(port, [StartReturns(0, Started)] + []);
  }

  /** A shutdown while both calls run leaves it alive, although neither call is in flight unmatched. */
  lemma SharedPortSurvives(port: nat)
    ensures var events := SharedPort(port, []);
            && Possible(INITIAL, events)
            && var s := Run(INITIAL, events);
            (forall l :: !InFlight(s, l)) && !AllKilled(Next(s, Deactivate))
  {
    var s := Shared(port);
    var t := Next(s, Deactivate);
    assert 0 in t.launches && t.launches[0].child !in t.killed;
    assert forall l :: !InFlight(s, l);
    PossibleNone(s);
    hide Run, Possible, SharedPort, Shared, Next;
    SharedPortHappens(port, []);
  }

  /**
   A call in flight at shutdown that then returns without its session having been seen leaves its
   child pending for good: only another shutdown, or nothing, would still kill it.
   */
  lemma LateReturnLeaks(s: State, l: LaunchId, events: seq<Event>)
    requires Inv(s) && InFlight(s, l)
    requires var t := Next(s, StartReturns(l, Started));
             Possible(t, events) && Deactivate !in events
    ensures var u := Run(Next(s, StartReturns(l, Started)), events);
            l in u.launches && u.launches[l].child !in u.killed
  {
    var t := Next(s, StartReturns(l, Started));
    StartReturnsKeeps(s, l, Started);
    LeaksOn(t, l, events);
  }

  /** Its launch is over and only the pending set knows the child. */
  predicate Stranded(s: State, l: LaunchId) {
    l in s.launches && s.launches[l].phase.Over? && s.launches[l].child in s.pendingChildren
    && s.launches[l].child !in s.killed && s.launches[l].child !in s.sessionChildren.Values
  }

  lemma {:induction false} LeaksOn(s: State, l: LaunchId, events: seq<Event>)
    requires Inv(s) && Stranded(s, l) && Possible(s, events) && Deactivate !in events
    ensures Stranded(Run(s, events), l)
    decreases |events|
  {
    if events != [] {
      var e := events[0];
      assert e in events;
      assert Deactivate !in events[1..];
      NextKeeps(s, e);
      StrandedStays(s, l, e);
      LeaksOn(Next(s, e), l, events[1..]);
    }
  }

  lemma StrandedStays(s: State, l: LaunchId, e: Event)
    requires Inv(s) && Stranded(s, l) && Enabled(s, e) && !e.Deactivate?
    ensures Stranded(Next(s, e), l)
  {
    OthersDiffer(s, l);
    if e.SessionStarts? { SessionHeard(s, e.session); }
    hide Heard, LastHearing, Without, Distinct, Spawned, AllTracked, Listening;
    assert e.Spawn? ==> s.launches[l].child != e.child;
    var c := s.launches[l].child;
    match e
    case SessionEnds(id) =>
      if id in s.sessionChildren {
        assert s.sessionChildren[id] != c;
      }
    case _ =>
  }

  /** Such a call happens: one launch, a shutdown, and the call returning behind it. */
  lemma LateReturnHappens(l: LaunchId, c: Child, port: nat)
    ensures var later := [Deactivate] + ([StartReturns(l, Started)] + []);
            var events := [Spawn(l, c)] + ([HandshakeSettles(l, port)] + ([Resume(l, false)] + later));
            Possible(INITIAL, events) && Run(INITIAL, events).deactivated && Stranded(Run(INITIAL, events), l)
  {
    var s := Launched(INITIAL, l, c, port);
    var t := Next(s, Deactivate);
    var u := Next(t, StartReturns(l, Started));
    assert Run(u, []) == u && u.deactivated && Stranded(u, l);
    PossibleNext(t, StartReturns(l, Started), []);
    PossibleNext(s, Deactivate, [StartReturns(l, Started)] + []);
    LaunchHappens(INITIAL, l, c, port, [Deactivate] + ([StartReturns(l, Started)] + []));
  }

  // ----- the extension's own state, updated in place -----

  class Extension {
    var sessionChildren: map<SessionId, Child>
    var pendingChildren: set<Child>
    var deactivated: bool
    /** The launches' own variables, the event emitter's listeners, and the processes killed. */
    var launches: map<LaunchId, Launch>
    var subscribers: seq<LaunchId>
    var killed: set<Child>

    function Now(): State
      reads this
    {
      State(launches, subscribers, sessionChildren, pendingChildren, deactivated, killed)
    }

    constructor ()
      ensures Now() == INITIAL
    {
      sessionChildren, pendingChildren, deactivated := map[], {}, false;
      launches, subscribers, killed := map[], [], {};
    }

    method TerminateChild(child: Child)
      modifies this`killed
      ensures Now() == Kill(old(Now()), child)
    {
      killed := killed + {child};
    }

    method OnSpawn(launch: LaunchId, child: Child)
      requires Enabled(Now(), Spawn(launch, child))
      modifies this
      ensures Now() == Next(old(Now()), Spawn(launch, child))
    {
      launches := launches[launch := Launch(child, Waiting)];
      pendingChildren := pendingChildren + {child};
    }

    /** The wait is over: the handshake came, or the runner rejected and killed the child. */
    method OnSettled(launch: LaunchId, handshake: Option<nat>)
      requires launch in launches && launches[launch].phase.Waiting?
      modifies this
      ensures Now() == Next(old(Now()), match handshake
                                        case Some(port) => HandshakeSettles(launch, port)
                                        case None => HandshakeFails(launch))
    {
      match handshake {
        case Some(port) => launches := launches[launch := launches[launch].(phase := Settled(true, port))];
        case None =>
          launches := launches[launch := launches[launch].(phase := Settled(false, 0))];
          TerminateChild(launches[launch].child);
      }
    }

    /** The resolver from behind its `await` up to the `startDebugging` call. */
    method AfterHandshake(launch: LaunchId, cancelled: bool)
      requires Enabled(Now(), Resume(launch, cancelled))
      modifies this
      ensures Now() == Next(old(Now()), Resume(launch, cancelled))
    {
      var child, phase := launches[launch].child, launches[launch].phase;
      pendingChildren := pendingChildren - {child};
      launches := launches[launch := Launch(child, Over)];
      if !phase.ok { return; }
      if deactivated || cancelled {
        TerminateChild(child);
        return;
      }
      launches := launches[launch := Launch(child, Starting(phase.settledPort, false))];
      subscribers := subscribers + [launch];
    }

    method OnDidStartDebugSession(session: Session)
      requires forall l :: l in subscribers ==> l in launches
      modifies this
      ensures Now() == Heard(old(Now()), session, |old(subscribers)|)
    {
      var n := 0;
      while n < |subscribers|
        invariant 0 <= n <= |subscribers| && subscribers == old(subscribers)
        invariant Now() == Heard(old(Now()), session, n)
      {
        var l := subscribers[n];
        if l in launches && launches[l].phase.Starting? && MatchesLaunch(session, l, launches[l].phase.port) {
          sessionChildren := sessionChildren[session.id := launches[l].child];
          launches := launches[l := launches[l].(phase := launches[l].phase.(matched := true))];
        }
        n := n + 1;
      }
    }

    /** The resolver from behind its `startDebugging` call to its end. */
    method AfterStartDebugging(launch: LaunchId, returned: Returned)
      requires Enabled(Now(), StartReturns(launch, returned))
      modifies this
      ensures Now() == Next(old(Now()), StartReturns(launch, returned))
    {
      var child, matched := launches[launch].child, launches[launch].phase.matched;
      launches := launches[launch := Launch(child, Over)];
      if !returned.Started? {
        TerminateChild(child);
      } else if !matched {
        pendingChildren := pendingChildren + {child};
      }
      subscribers := Without(subscribers, launch);
    }

    method OnDidTerminateDebugSession(id: SessionId)
      modifies this
      ensures Now() == Next(old(Now()), SessionEnds(id))
    {
      if id in sessionChildren {
        TerminateChild(sessionChildren[id]);
        sessionChildren := sessionChildren - {id};
      }
    }

    method TerminateAll(children: set<Child>)
      modifies this`killed
      ensures Now() == old(Now()).(killed := old(killed) + children)
    {
      var todo := children;
      while todo != {}
        invariant todo <= children && Now() == old(Now()).(killed := old(killed) + (children - todo))
        decreases todo
      {
        var child :| child in todo;
        TerminateChild(child);
        todo := todo - {child};
      }
    }

    method DeactivateExtension()
      modifies this
      ensures Now() == Next(old(Now()), Deactivate)
    {
      deactivated := true;
      TerminateAll(sessionChildren.Values);
      sessionChildren := map[];
      TerminateAll(pendingChildren);
      pendingChildren := {};
    }
  }
}
