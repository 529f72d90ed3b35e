/**
 The status-bar target picker of the extension (`targetPicker.ts`): the cache of probed
 capabilities, which has to agree with the history of session starts, handshakes and picks.
 */
module TargetPicker {
  import opened Wrappers

  type Caps = map<string, bool>

  /** A target's name; None for a session that was given no target. */
  type Name = Option<string>

  datatype Event = Start(name: Name) | Handshake(name: Name, caps: Caps) | Pick(picked: string)

  type History = seq<Event>

  datatype Probe = Probe(name: Name, caps: Caps)

  /** What the tooltip says: capabilities under a name, as those of the selection or of the latest session, or none. */
  datatype Tooltip =
    | OfSelection(target: string, caps: Caps)
    | OfLatest(name: Name, caps: Caps)
    | Unprobed(selected: Option<string>)

  // ----- what the history says -----

  /** Event `i` is the name's latest handshake, and no session of that name has started since. */
  ghost predicate IsCurrent(h: History, name: Name, i: nat) {
    i < |h| && h[i].Handshake? && h[i].name == name && forall j :: i < j < |h| ==> !Concerns(h[j], name)
  }

  predicate Concerns(e: Event, name: Name) {
    !e.Pick? && e.name == name
  }

  /** Event `i` is the latest handshake of all, and no session of its name has started since. */
  ghost predicate IsLatest(h: History, i: nat) {
    i < |h| && h[i].Handshake? && forall j :: i < j < |h| ==> !h[j].Handshake? && !Concerns(h[j], h[i].name)
  }

  /** The handshake reports a firmware without local names. */
  predicate HidesNames(e: Event, name: Name) {
    e.Handshake? && e.name == name && !("save_names" in e.caps && e.caps["save_names"])
  }

  // ----- the state after a history -----

  function ProbesOf(h: History): map<string, Caps> {
    if h == [] then map[]
    else
      var (front, e) := (ProbesOf(h[..|h| - 1]), h[|h| - 1]);
      match e
      case Handshake(Some(name), caps) => front[name := caps]
      case Start(Some(name)) => front - {name}
      case _ => front
  }

  function LastOf(h: History): Option<Probe> {
    if h == [] then None
    else
      var (front, e) := (LastOf(h[..|h| - 1]), h[|h| - 1]);
      match e
      case Handshake(name, caps) => Some(Probe(name, caps))
      case Start(name) => if front.Some? && front.value.name == name then None else front
      case Pick(_) => front
  }

  function SelectedOf(h: History): Option<string> {
    if h == [] then None
    else if h[|h| - 1].Pick? then Some(h[|h| - 1].picked)
    else SelectedOf(h[..|h| - 1])
  }

  /** The names warned about, in order. */
  function WarningsOf(h: History): seq<Name> {
    if h == [] then []
    else
      var (front, e) := (WarningsOf(h[..|h| - 1]), h[|h| - 1]);
      if e.Handshake? && HidesNames(e, e.name) && e.name !in front then front + [e.name] else front
  }

  /** An empty name that was picked reads as no selection where nothing is probed. */
  function Tip(selected: Option<string>, probes: map<string, Caps>, last: Option<Probe>): Tooltip {
    if selected.Some? && selected.value in probes then OfSelection(selected.value, probes[selected.value])
    else if selected.None? && last.Some? then OfLatest(last.value.name, last.value.caps)
    else Unprobed(if selected == Some("") then None else selected)
  }

  /** The status bar always names the selection. */
  function BarText(selected: Option<string>): string {
    "$(debug-alt) " + if selected.Some? then selected.value else "MicroPython"
  }

  function TooltipOf(h: History): Tooltip {
    Tip(SelectedOf(h), ProbesOf(h), LastOf(h))
  }

  // ----- the state says what the history says -----

  /**
   A name's cached probe is its latest handshake with no start since, and there is none exactly when
   there is no such handshake.
   */
  lemma {:induction false} ProbeIsCurrent(h: History, name: string)
    ensures name in ProbesOf(h) <==> exists i: nat :: IsCurrent(h, Some(name), i)
    ensures forall i: nat :: IsCurrent(h, Some(name), i) ==> name in ProbesOf(h) && ProbesOf(h)[name] == h[i].caps
  {
    if h != [] {
      var n := |h| - 1;
      var front := h[..n];
      ProbeIsCurrent(front, name);
      if Concerns(h[n], Some(name)) {
        assert h[n].Handshake? ==> IsCurrent(h, Some(name), n);
        assert forall i: nat :: IsCurrent(h, Some(name), i) ==> i >= n;
      } else {
        forall i: nat
          ensures IsCurrent(h, Some(name), i) <==> IsCurrent(front, Some(name), i)
        {
        }
      }
    }
  }

  /** The fallback probe is the latest handshake of all, unless a session of that name has started since. */
  lemma {:induction false} LastIsLatest(h: History)
    ensures LastOf(h).Some? <==> exists i: nat :: IsLatest(h, i)
    ensures forall i: nat :: IsLatest(h, i) ==> LastOf(h) == Some(Probe(h[i].name, h[i].caps))
  {
    if h != [] {
      var n := |h| - 1;
      var front := h[..n];
      LastIsLatest(front);
      if h[n].Handshake? {
        assert IsLatest(h, n);
        assert forall i: nat :: IsLatest(h, i) ==> i >= n;
      } else {
        forall i: nat
          ensures IsLatest(h, i) <==> IsLatest(front, i) && !Concerns(h[n], h[i].name)
        {
        }
      }
    }
  }

  /** The latest handshake of all is also the current one of its name. */
  lemma LatestIsCurrent(h: History, i: nat)
    requires IsLatest(h, i)
    ensures IsCurrent(h, h[i].name, i)
  {
  }

  /**
   The tooltip is honest: capabilities it shows, for the selection or else for the latest session,
   are those of that name's latest handshake, and no session of that name has started since. With
   a selection it says nothing of other names, and it says "unprobed" only when the selection has
   no such handshake.
   */
  lemma TooltipIsHonest(h: History)
    ensures match TooltipOf(h)
            case OfSelection(name, caps) =>
              SelectedOf(h) == Some(name) && exists i: nat :: IsCurrent(h, Some(name), i) && h[i].caps == caps
            case OfLatest(name, caps) =>
              SelectedOf(h).None?
              && exists i: nat :: IsLatest(h, i) && IsCurrent(h, name, i) && h[i].caps == caps
            case Unprobed(shown) =>
              shown == (if SelectedOf(h) == Some("") then None else SelectedOf(h))
              && if SelectedOf(h).Some? then forall i: nat :: !IsCurrent(h, SelectedOf(h), i)
              else forall i: nat :: !IsLatest(h, i)
  {
    var selected := SelectedOf(h);
    if selected.Some? {
      ProbeIsCurrent(h, selected.value);
    } else {
      LastIsLatest(h);
      if LastOf(h).Some? {
        var i: nat :| IsLatest(h, i);
        LatestIsCurrent(h, i);
      }
    }
  }

  /**
   Every name with a handshake that does not report `save_names` is warned about, no name twice, and
   in the order in which these come.
   */
  lemma {:induction false} WarnedOnce(h: History)
    ensures forall i, j :: 0 <= i < j < |WarningsOf(h)| ==> WarningsOf(h)[i] != WarningsOf(h)[j]
    ensures forall name :: name in WarningsOf(h) <==> exists i, caps :: 0 <= i < |h| && h[i] == Handshake(name, caps) && LacksNames(caps)
    ensures forall n :: 0 <= n <= |h| ==> WarningsOf(h[..n]) <= WarningsOf(h)
  {
    if h != [] {
      var n := |h| - 1;
      var front := h[..n];
      WarnedOnce(front);
      forall name
        ensures name in WarningsOf(h) <==> exists i, caps :: 0 <= i < |h| && h[i] == Handshake(name, caps) && LacksNames(caps)
      {
        if HidesNames(h[n], name) {
          assert h[n] == Handshake(name, h[n].caps) && LacksNames(h[n].caps);
          assert name in WarningsOf(h);
        } else {
          assert forall i :: 0 <= i < n ==> h[i] == front[i];
          assert name in WarningsOf(h) <==> name in WarningsOf(front);
        }
      }
      forall m | 0 <= m <= |h|
        ensures WarningsOf(h[..m]) <= WarningsOf(h)
      {
        if m <= n { assert front[..m] == h[..m]; } else { assert h[..m] == h; }
      }
    }
  }

  /** The firmware has no local names, or says nothing of them. */
  predicate LacksNames(caps: Caps) {
    "save_names" in caps ==> caps["save_names"] == false
  }

  /**
   The start of a session hides a handshake of another name that came before the latest one: with
   no selection the tooltip then says nothing, though that handshake is still current.
   */
  lemma EarlierHandshakeHidden(a: Name, b: Name, caps: Caps)
    requires a != b
    ensures var h := [Handshake(a, caps), Handshake(b, caps), Start(b)];
            IsCurrent(h, a, 0) && TooltipOf(h) == Unprobed(None)
  {
    var h := [Handshake(a, caps), Handshake(b, caps), Start(b)];
    assert h[..2] == [Handshake(a, caps), Handshake(b, caps)];
    assert SelectedOf(h) == SelectedOf(h[..2]) == SelectedOf(h[..2][..1]) == SelectedOf(h[..2][..1][..0]);
    assert LastOf(h[..2]) == Some(Probe(b, caps));
  }

  // ----- the picker -----

  lemma PickNext(h: History, name: string)
    ensures var after := h + [Pick(name)];
            && ProbesOf(after) == ProbesOf(h) && LastOf(after) == LastOf(h) && WarningsOf(after) == WarningsOf(h)
            && SelectedOf(after) == Some(name)
  {
    assert (h + [Pick(name)])[..|h|] == h;
  }

  lemma StartNext(h: History, name: Name)
    ensures var after := h + [Start(name)];
            && ProbesOf(after) == (if name.Some? then ProbesOf(h) - {name.value} else ProbesOf(h))
            && LastOf(after) == (if LastOf(h).Some? && LastOf(h).value.name == name then None else LastOf(h))
            && WarningsOf(after) == WarningsOf(h) && SelectedOf(after) == SelectedOf(h)
  {
    assert (h + [Start(name)])[..|h|] == h;
  }

  lemma HandshakeNext(h: History, name: Name, caps: Caps)
    ensures var after := h + [Handshake(name, caps)];
            && ProbesOf(after) == (if name.Some? then ProbesOf(h)[name.value := caps] else ProbesOf(h))
            && LastOf(after) == Some(Probe(name, caps)) && SelectedOf(after) == SelectedOf(h)
            && WarningsOf(after) == if HidesNames(Handshake(name, caps), name) && name !in WarningsOf(h)
                                    then WarningsOf(h) + [name] else WarningsOf(h)
  {
    assert (h + [Handshake(name, caps)])[..|h|] == h;
  }

  /** The selection is the latest pick. */
  lemma {:induction false} SelectedIsLatest(h: History, name: string)
    ensures SelectedOf(h) == Some(name)
       <==> exists i :: 0 <= i < |h| && h[i] == Pick(name) && forall j :: i < j < |h| ==> !h[j].Pick?
  {
    if h != [] {
      var n := |h| - 1;
      var front := h[..n];
      SelectedIsLatest(front, name);
      if h[n].Pick? {
        assert SelectedOf(h) == Some(name) ==> h[n] == Pick(name);
      } else {
        assert forall i :: 0 <= i < n ==> front[i] == h[i];
        if SelectedOf(h) == Some(name) {
          var i :| 0 <= i < n && front[i] == Pick(name) && forall j :: i < j < n ==> !front[j].Pick?;
          assert h[i] == Pick(name);
        }
      }
    }
  }

  /**
   How what is shown changes. With a selection: a handshake of it is shown, its start shows nothing, and
   other names change nothing. Without one, the latest handshake is shown until a session of its name starts.
   */
  lemma TooltipNext(h: History, name: Name, caps: Caps)
    ensures var selected := SelectedOf(h);
            var started, shaken := TooltipOf(h + [Start(name)]), TooltipOf(h + [Handshake(name, caps)]);
            match selected
            case Some(s) =>
              if name == Some(s) then shaken == OfSelection(s, caps) && started == Unprobed(if s == "" then None else Some(s))
              else started == TooltipOf(h) && shaken == TooltipOf(h)
            case None =>
              && shaken == OfLatest(name, caps)
              && match TooltipOf(h)
                 case OfLatest(n, _) => started == if n == name then Unprobed(None) else TooltipOf(h)
                 case _ => started == TooltipOf(h)
  {
    StartNext(h, name);
    HandshakeNext(h, name, caps);
    hide ProbesOf, LastOf, SelectedOf, WarningsOf;
  }

  lemma BarNamesSelection(h: History, name: string)
    ensures BarText(SelectedOf(h + [Pick(name)])) == "$(debug-alt) " + name
    ensures BarText(SelectedOf([])) == "$(debug-alt) MicroPython"
    ensures TooltipOf([]) == Unprobed(None)
  {
    PickNext(h, name);
    hide SelectedOf, ProbesOf, LastOf, WarningsOf;
    NothingYet();
  }

  lemma NothingYet()
    ensures SelectedOf([]) == None && ProbesOf([]) == map[] && LastOf([]) == None
  {
  }

  class Picker {
    var namedProbes: map<string, Caps>
    var lastProbe: Option<Probe>
    var namedWarned: set<string>
    var defaultWarned: bool
    var selected: Option<string>
    var text: string
    var tooltip: Tooltip
    var warnings: seq<Name>
    ghost var history: History

    /** The cached probes and the selection are what the history says. */
    ghost predicate IsCached()
      reads this
    {
      && namedProbes == ProbesOf(history)
      && lastProbe == LastOf(history)
      && selected == SelectedOf(history)
    }

    /** Every field is what the history says it is. */
    ghost predicate Valid()
      reads this
    {
      && IsCached()
      && warnings == WarningsOf(history)
      && AreWarned()
    }

    ghost predicate AreWarned()
      reads `namedWarned, `defaultWarned, `warnings
    {
      (forall name :: name in namedWarned <==> Some(name) in warnings) && (defaultWarned <==> None in warnings)
    }

    /** What is on the status bar is up to date. */
    ghost predicate IsShown()
      reads this
    {
      tooltip == TooltipOf(history) && text == BarText(SelectedOf(history))
    }

    /** `stored` is the pick that the workspace remembers. */
    constructor (stored: Option<string>)
      ensures Valid() && IsShown()
      ensures history == if stored.Some? then [Pick(stored.value)] else []
    {
      namedProbes, lastProbe, namedWarned, defaultWarned, warnings := map[], None, {}, false, [];
      selected := stored;
      history := if stored.Some? then [Pick(stored.value)] else [];
      new;
      if stored.Some? {
        PickNext([], stored.value);
        assert [] + [Pick(stored.value)] == history;
      }
      Render();
    }

    method Render()
      requires IsCached()
      modifies `text, `tooltip
      ensures IsCached() && IsShown()
    {
      hide ProbesOf, LastOf, SelectedOf;
      text := "$(debug-alt) " + if selected.Some? then selected.value else "MicroPython";
      if selected.Some? && selected.value in namedProbes {
        tooltip := OfSelection(selected.value, namedProbes[selected.value]);
        return;
      }
      if selected.None? && lastProbe.Some? {
        tooltip := OfLatest(lastProbe.value.name, lastProbe.value.caps);
        return;
      }
      tooltip := Unprobed(if selected == Some("") then None else selected);
    }

    method SetSelectedTarget(name: string)
      requires Valid()
      modifies `selected, `history, `text, `tooltip
      ensures Valid() && IsShown() && history == old(history) + [Pick(name)]
    {
      hide ProbesOf, LastOf, SelectedOf, WarningsOf, AreWarned, TooltipOf, BarText;
      PickNext(history, name);
      selected := Some(name);
      history := history + [Pick(name)];
      Render();
    }

    method ReportSessionStart(name: Name)
      requires Valid()
      modifies `namedProbes, `lastProbe, `history, `text, `tooltip
      ensures Valid() && IsShown() && history == old(history) + [Start(name)]
    {
      hide ProbesOf, LastOf, SelectedOf, WarningsOf, AreWarned, TooltipOf, BarText;
      StartNext(history, name);
      history := history + [Start(name)];
      match name {
        case None =>
          if lastProbe.None? || lastProbe.value.name.None? { lastProbe := None; }
        case Some(n) =>
          namedProbes := namedProbes - {n};
          if lastProbe.Some? && lastProbe.value.name == Some(n) { lastProbe := None; }
      }
      Render();
    }

    method ReportHandshake(name: Name, caps: Caps)
      requires Valid()
      modifies this
      ensures Valid() && IsShown() && history == old(history) + [Handshake(name, caps)]
    {
      hide ProbesOf, LastOf, SelectedOf, WarningsOf, AreWarned, TooltipOf, BarText;
      HandshakeNext(history, name, caps);
      history := history + [Handshake(name, caps)];
      if name.Some? { namedProbes := namedProbes[name.value := caps]; }
      lastProbe := Some(Probe(name, caps));
      Render();
      if !("save_names" in caps && caps["save_names"]) { WarnOnce(name); }
    }

    method WarnOnce(name: Name)
      requires AreWarned()
      modifies `namedWarned, `defaultWarned, `warnings
      ensures AreWarned()
      ensures warnings == if name in old(warnings) then old(warnings) else old(warnings) + [name]
    {
      var alreadyWarned := if name.None? then defaultWarned else name.value in namedWarned;
      if !alreadyWarned {
        if name.None? { defaultWarned := true; } else { namedWarned := namedWarned + {name.value}; }
        warnings := warnings + [name];
      }
    }
  }
}
