/**
 Presence over whole runs: sessions come and go, the syncer takes the difference
 to the last acknowledged report, pushes it, and commits it only when the panel
 accepted it (panelapi/sync.go, flushAlive).

 Taking the snapshot, taking the difference, pushing and committing are separate
 steps, so sessions may open and close between any two of them.
 */
module Presence {
  import opened Text
  import opened SourceClassifier
  import RefCounts
  import SourceTag
  import opened Alive

  // What the panel shows, per inbound tag and user.
  type View = map<(string, string), seq<string>>

  // Where the syncer stands. `at` is the tracker as it was when the syncer took
  // its snapshot of the devices.
  datatype Sync =
    | Idle
    | Snapped(at: RefCounts.World)
    | Diffed(at: RefCounts.World, delta: Report)
    | Accepted(at: RefCounts.World, delta: Report)

  datatype State = State(tracker: RefCounts.World, last: Report, view: View, sync: Sync)

  datatype Event = Session(e: RefCounts.Event) | TakeSnapshot | TakeDelta | Push(accepted: bool) | Commit

  const Initial := State(RefCounts.Nothing, map[], map[], Idle)

  function Shown(view: View, inbound: string, user: string): seq<string> {
    if (inbound, user) in view then view[(inbound, user)] else []
  }

  // The panel replaces the addresses of every pair a payload mentions.
  function Received(view: View, payload: Report): View {
    var mentioned := set i, u | i in payload && u in payload[i] :: (i, u);
    map p | p in view.Keys + mentioned :: if p in mentioned then payload[p.0][p.1] else view[p]
  }

  ghost function Step(net: Net, classifier: Option<seq<Rule>>, s: State, e: Event): State {
    match e
    case Session(se) => s.(tracker := RefCounts.Step(net, classifier, s.tracker, se))
    case TakeSnapshot => if s.sync.Idle? then s.(sync := Snapped(s.tracker)) else s
    case TakeDelta =>
      if !s.sync.Snapped? then s
      else
        var delta := Delta(s.last, Snapshot(s.sync.at.devices));
        // An empty difference is not pushed.
        s.(sync := if delta == map[] then Idle else Diffed(s.sync.at, delta))
    case Push(accepted) =>
      if !s.sync.Diffed? then s
      else if !accepted then s.(sync := Idle)
      else s.(view := Received(s.view, s.sync.delta), sync := Accepted(s.sync.at, s.sync.delta))
    case Commit =>
      if !s.sync.Accepted? then s
      else s.(last := Committed(s.last, s.sync.delta), sync := Idle)
  }

  ghost function Execute(net: Net, classifier: Option<seq<Rule>>, s: State, events: seq<Event>): State
    decreases |events|
  {
    if events == [] then s else Execute(net, classifier, Step(net, classifier, s, events[0]), events[1..])
  }

  // The panel shows the report, pair by pair.
  ghost predicate Agree(view: View, report: Report) {
    forall i, u :: Shown(view, i, u) == At(report, i, u)
  }

  ghost predicate Inv(s: State) {
    && RefCounts.Inv(s.tracker)
    && WellFormed(s.last)
    && (!s.sync.Idle? ==> RefCounts.Inv(s.sync.at))
    && (s.sync.Diffed? || s.sync.Accepted? ==> s.sync.delta == Delta(s.last, Snapshot(s.sync.at.devices)))
    && (if s.sync.Accepted? then Agree(s.view, Snapshot(s.sync.at.devices)) else Agree(s.view, s.last))
  }

  lemma ReceivedDelta(view: View, last: Report, current: Report)
    requires WellFormed(last) && WellFormed(current) && Agree(view, last)
    ensures Agree(Received(view, Delta(last, current)), current)
  {
    forall i, u
      ensures Shown(Received(view, Delta(last, current)), i, u) == At(current, i, u)
    {
      DeltaIsExact(last, current, i, u);
      assert Shown(view, i, u) == At(last, i, u);
      ReceivedAt(view, Delta(last, current), i, u);
    }
  }

  lemma ReceivedAt(view: View, payload: Report, i: string, u: string)
    ensures Shown(Received(view, payload), i, u) == if Has(payload, i, u) then At(payload, i, u) else Shown(view, i, u)
  {}

  lemma StepKeepsInv(net: Net, classifier: Option<seq<Rule>>, s: State, e: Event)
    requires CleanClassifier(classifier) && Inv(s)
    ensures Inv(Step(net, classifier, s, e))
  {
    if !s.sync.Idle? {
      SnapshotWellFormed(s.sync.at.devices);
    }
    match e
    case Session(se) => RefCounts.StepKeepsInv(net, classifier, s.tracker, se);
    case TakeSnapshot =>
    case TakeDelta =>
    case Push(accepted) =>
      if s.sync.Diffed? && accepted {
        ReceivedDelta(s.view, s.last, Snapshot(s.sync.at.devices));
      }
    case Commit =>
      if s.sync.Accepted? {
        CommitDelta(s.last, Snapshot(s.sync.at.devices));
      }
  }

  lemma {:induction false} ExecuteKeepsInv(net: Net, classifier: Option<seq<Rule>>, s: State, events: seq<Event>)
    requires CleanClassifier(classifier) && Inv(s)
    ensures Inv(Execute(net, classifier, s, events))
    decreases |events|
  {
    if events != [] {
      StepKeepsInv(net, classifier, s, events[0]);
      ExecuteKeepsInv(net, classifier, Step(net, classifier, s, events[0]), events[1..]);
    }
  }

  ghost predicate Reachable(net: Net, classifier: Option<seq<Rule>>, s: State) {
    exists events :: Execute(net, classifier, Initial, events) == s
  }

  lemma ReachableInv(net: Net, classifier: Option<seq<Rule>>, s: State)
    requires CleanClassifier(classifier) && Reachable(net, classifier, s)
    ensures Inv(s)
  {
    var events :| Execute(net, classifier, Initial, events) == s;
    RefCounts.NothingInv();
    ExecuteKeepsInv(net, classifier, Initial, events);
  }

  // Whatever pushes failed, what the panel shows is what the tracker believes it
  // acknowledged, except between an accepted push and its commit.
  lemma PanelShowsLastAlive(net: Net, classifier: Option<seq<Rule>>, s: State, inbound: string, user: string)
    requires CleanClassifier(classifier) && Reachable(net, classifier, s) && !s.sync.Accepted?
    ensures Shown(s.view, inbound, user) == At(s.last, inbound, user)
  {
    ReachableInv(net, classifier, s);
  }

  // An accepted push makes the panel list an address for a user exactly when a
  // session from it was live at the moment of the snapshot, whatever opened or
  // closed since; and the commit that follows records exactly that snapshot.
  lemma AcceptedPushShowsLiveSessions(net: Net, classifier: Option<seq<Rule>>, s: State,
                                      inbound: string, user: string, ip: string)
    requires CleanClassifier(classifier) && Reachable(net, classifier, s) && s.sync.Accepted?
    ensures ip in Shown(s.view, inbound, user)
            <==> RefCounts.Live(s.sync.at.log, RefCounts.Of(true, inbound, user, ip)) > 0
    ensures Step(net, classifier, s, Commit).last == Snapshot(s.sync.at.devices)
  {
    ReachableInv(net, classifier, s);
    SnapshotWellFormed(s.sync.at.devices);
    CommitDelta(s.last, Snapshot(s.sync.at.devices));
    SnapshotLists(s.sync.at.devices, inbound, user, ip);
    assert Shown(s.view, inbound, user) == At(Snapshot(s.sync.at.devices), inbound, user);
    assert RefCounts.Refines(s.sync.at.devices, true, s.sync.at.log);
  }

  // When there is nothing to push, the panel already lists exactly the live
  // sessions of that moment.
  lemma NothingToPushMeansUpToDate(net: Net, classifier: Option<seq<Rule>>, s: State,
                                   inbound: string, user: string, ip: string)
    requires CleanClassifier(classifier) && Reachable(net, classifier, s) && s.sync.Snapped?
    requires Delta(s.last, Snapshot(s.sync.at.devices)) == map[]
    ensures ip in Shown(s.view, inbound, user)
            <==> RefCounts.Live(s.sync.at.log, RefCounts.Of(true, inbound, user, ip)) > 0
  {
    ReachableInv(net, classifier, s);
    var current := Snapshot(s.sync.at.devices);
    SnapshotWellFormed(s.sync.at.devices);
    DeltaIsExact(s.last, current, inbound, user);
    SnapshotLists(s.sync.at.devices, inbound, user, ip);
    assert Shown(s.view, inbound, user) == At(s.last, inbound, user);
    assert RefCounts.Refines(s.sync.at.devices, true, s.sync.at.log);
  }

  // A failed push leaves the panel and the acknowledged report as they were, and the
  // syncer idle for the next snapshot.
  lemma FailedPushChangesNothing(net: Net, classifier: Option<seq<Rule>>, s: State)
    requires s.sync.Diffed?
    ensures Step(net, classifier, s, Push(false)) == s.(sync := Idle)
  {}

  // ------------------------------------------------------------------- one cycle

  ghost function Cycle(net: Net, classifier: Option<seq<Rule>>, s: State): State {
    Step(net, classifier, Step(net, classifier, Step(net, classifier, Step(net, classifier, s, TakeSnapshot),
      TakeDelta), Push(true)), Commit)
  }

  // The syncer's steps of a cycle that has nothing to push, and of one that has.
  lemma QuietCycle(net: Net, classifier: Option<seq<Rule>>, s: State)
    requires s.sync.Idle? && Delta(s.last, Snapshot(s.tracker.devices)) == map[]
    ensures Step(net, classifier, s, TakeSnapshot) == s.(sync := Snapped(s.tracker))
    ensures Cycle(net, classifier, s) == s
  {}

  lemma PushingCycle(net: Net, classifier: Option<seq<Rule>>, s: State) returns (pushed: State)
    requires Reachable(net, classifier, s)
    requires s.sync.Idle? && Delta(s.last, Snapshot(s.tracker.devices)) != map[]
    ensures Reachable(net, classifier, pushed) && pushed.sync.Accepted?
    ensures pushed.sync.at == s.tracker == pushed.tracker
    ensures Cycle(net, classifier, s) == Step(net, classifier, pushed, Commit)
  {
    var snapped := Step(net, classifier, s, TakeSnapshot);
    var diffed := Step(net, classifier, snapped, TakeDelta);
    pushed := Step(net, classifier, diffed, Push(true));
    ReachableThen(net, classifier, s, TakeSnapshot);
    ReachableThen(net, classifier, snapped, TakeDelta);
    ReachableThen(net, classifier, diffed, Push(true));
  }

  // From an idle syncer an undisturbed cycle makes the panel show the devices as they
  // are, whether or not there is anything to push.
  lemma CycleShowsDevices(net: Net, classifier: Option<seq<Rule>>, s: State, inbound: string, user: string, ip: string)
    requires CleanClassifier(classifier) && Reachable(net, classifier, s) && s.sync.Idle?
    ensures var t := Cycle(net, classifier, s);
            && t.sync.Idle? && t.tracker == s.tracker
            && (ip in Shown(t.view, inbound, user)
                <==> RefCounts.Live(s.tracker.log, RefCounts.Of(true, inbound, user, ip)) > 0)
  {
    if Delta(s.last, Snapshot(s.tracker.devices)) == map[] {
      QuietCycle(net, classifier, s);
      ReachableThen(net, classifier, s, TakeSnapshot);
      NothingToPushMeansUpToDate(net, classifier, s.(sync := Snapped(s.tracker)), inbound, user, ip);
    } else {
      var pushed := PushingCycle(net, classifier, s);
      AcceptedPushShowsLiveSessions(net, classifier, pushed, inbound, user, ip);
    }
  }

  lemma ReachableThen(net: Net, classifier: Option<seq<Rule>>, s: State, e: Event)
    requires Reachable(net, classifier, s)
    ensures Reachable(net, classifier, Step(net, classifier, s, e))
  {
    var events :| Execute(net, classifier, Initial, events) == s;
    ExecuteThen(net, classifier, Initial, events, e);
  }

  lemma {:induction false} ExecuteThen(net: Net, classifier: Option<seq<Rule>>, s: State, events: seq<Event>, e: Event)
    ensures Execute(net, classifier, s, events + [e])
            == Step(net, classifier, Execute(net, classifier, s, events), e)
    decreases |events|
  {
    if events == [] {
      assert [e][1..] == [];
      assert Execute(net, classifier, Step(net, classifier, s, e), []) == Step(net, classifier, s, e);
    } else {
      assert (events + [e])[1..] == events[1..] + [e];
      ExecuteThen(net, classifier, Step(net, classifier, s, events[0]), events[1..], e);
    }
  }

  // So a session that opens is shown after the next cycle, under the address of its peer.
  lemma OpenIsShown(net: Net, classifier: Option<seq<Rule>>, s: State, inbound: string, user: string, peer: string)
    requires CleanClassifier(classifier) && Reachable(net, classifier, s) && s.sync.Idle?
    requires user != "" && NormalizePeerIP(net, peer) != ""
    ensures var t := Cycle(net, classifier, Step(net, classifier, s, Session(RefCounts.Open(inbound, user, peer))));
            NormalizePeerIP(net, peer) in Shown(t.view, SourceTag.NormalizeInbound(inbound), user)
  {
    var e := RefCounts.Open(inbound, user, peer);
    var after := Step(net, classifier, s, Session(e));
    var tag, ip := SourceTag.NormalizeInbound(inbound), NormalizePeerIP(net, peer);
    ReachableThen(net, classifier, s, Session(e));
    RefCounts.OpenCounts(net, classifier, s.tracker, inbound, user, peer);
    assert after.tracker.log[..|s.tracker.log|] == s.tracker.log;
    CycleShowsDevices(net, classifier, after, tag, user, ip);
  }
}
