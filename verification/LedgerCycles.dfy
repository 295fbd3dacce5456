/**
 What one cycle of the syncer brings about, whatever connections do meanwhile: an
 accepted push carries everything that was counted when the cycle began, and a
 removal forgets the users that are gone and owe nothing, and no others
 (panelapi/sync.go, counter/counter.go).
 */
module LedgerCycles {
  import opened Text
  import opened Ledger

  // ------------------------------------------------------------------- reading

  // What the delta that is being read has for a key.
  function Read(delta: map<Key, Usage>, k: Key, d: Direction): int { if k in delta then delta[k].Of(d) else 0 }

  // The registered storage of the key still stands, having counted no less.
  ghost predicate StillThere(s: State, v: State, k: Key) {
    k in s.registry ==>
      && Registered(s, k) && k in v.registry && v.registry[k] == s.registry[k] && Registered(v, k)
      && OwesNoLess(v.storages[v.registry[k]], s.storages[s.registry[k]])
  }

  // As far as the key was read, no less was read than it owed in `s`.
  ghost predicate ReadSince(s: State, v: State, k: Key) {
    && v.sync.Reading? && v.accepted == s.accepted && StillThere(s, v, k)
    && (k in s.registry && k in v.sync.seen ==>
          var owed := Owed(s.storages[s.registry[k]]);
          if v.sync.half.Some? && v.sync.half.value.0 == k then v.sync.half.value.1 >= owed.up
          else forall d :: Read(v.sync.delta, k, d) >= owed.Of(d))
  }

  lemma ReadStep(s: State, v: State, e: Event, k: Key)
    requires Inv(s) && Inv(v) && ReadSince(s, v, k) && !e.EndRead?
    ensures ReadSince(s, Step(v, e), k)
  {
    if k in s.registry {
      assert s.storages[s.registry[k]] in s.storages;
      assert v.storages[v.registry[k]].key == k;
    }
    match e
    case Count(i, d, n) =>
    case Register(r) =>
    case ReadUp(r) =>
    case ReadDown =>
    case _ =>
  }

  lemma {:induction false} ReadRun(s: State, v: State, events: seq<Event>, k: Key)
    requires Inv(s) && Inv(v) && ReadSince(s, v, k) && forall e :: e in events ==> !e.EndRead?
    ensures Inv(Execute(v, events)) && ReadSince(s, Execute(v, events), k)
    decreases |events|
  {
    if events != [] {
      assert events[0] in events;
      StepKeepsInv(v, events[0]);
      ReadStep(s, v, events[0], k);
      ReadRun(s, Step(v, events[0]), events[1..], k);
    }
  }

  // ------------------------------------------------------------------ delivering

  lemma DeliveredStep(v: State, e: Event, k: Key, d: Direction)
    requires Inv(v)
    ensures Delivered(Step(v, e).accepted, k, d) >= Delivered(v.accepted, k, d)
  {
    if v.sync.Pushing? && e == Push(true) {
      var more := Step(v, e).accepted;
      assert more[..|v.accepted|] == v.accepted;
    }
  }

  // The delta is still to be pushed, or as much was delivered.
  ghost predicate OnItsWay(v: State, k: Key, d: Direction, wanted: int) {
    (v.sync.Pushing? && Delivered(v.accepted, k, d) + Read(v.sync.delta, k, d) >= wanted)
    || Delivered(v.accepted, k, d) >= wanted
  }

  lemma OnItsWayStep(v: State, e: Event, k: Key, d: Direction, wanted: int)
    requires Inv(v) && OnItsWay(v, k, d, wanted) && e != Push(false) && IsNumericUser(k.user)
    ensures OnItsWay(Step(v, e), k, d, wanted)
  {
    DeliveredStep(v, e, k, d);
    if v.sync.Pushing? && e == Push(true) {
      var more := Step(v, e).accepted;
      assert more[..|v.accepted|] == v.accepted;
    }
  }

  lemma {:induction false} OnItsWayRun(v: State, events: seq<Event>, k: Key, d: Direction, wanted: int)
    requires Inv(v) && OnItsWay(v, k, d, wanted) && Push(false) !in events && IsNumericUser(k.user)
    ensures OnItsWay(Execute(v, events), k, d, wanted)
    decreases |events|
  {
    if events != [] {
      assert events[0] in events;
      StepKeepsInv(v, events[0]);
      OnItsWayStep(v, events[0], k, d, wanted);
      OnItsWayRun(Step(v, events[0]), events[1..], k, d, wanted);
    }
  }

  // The state when the snapshot that begins in `s` has made the steps `reading`.
  function Snapshot(s: State, reading: seq<Event>): State { Execute(Step(s, StartRead), reading) }

  // The state after the rest of the cycle.
  function AfterCycle(s: State, reading: seq<Event>, rest: seq<Event>): State {
    Execute(Step(Snapshot(s, reading), EndRead), rest)
  }

  // From an idle syncer: a snapshot in which the key was read, and whatever follows
  // until the syncer is idle again without a push having failed. Between any two steps
  // anything may be counted or registered.
  ghost predicate Cycle(s: State, reading: seq<Event>, rest: seq<Event>, k: Key) {
    && Reachable(s) && s.sync.Idle?
    && (forall e :: e in reading ==> !e.EndRead?)
    && ReadIn(s, Snapshot(s, reading), k)
    && Push(false) !in rest
    && AfterCycle(s, reading, rest).sync.Idle?
  }

  ghost predicate ReadIn(s: State, u: State, k: Key) {
    u.sync.Reading? && u.sync.half.None? && (k in s.registry ==> k in u.sync.seen)
  }

  lemma StartsReading(s: State, k: Key)
    requires Inv(s) && s.sync.Idle?
    ensures Inv(Step(s, StartRead)) && ReadSince(s, Step(s, StartRead), k)
  {
    StepKeepsInv(s, StartRead);
  }

  lemma EndsReading(s: State, u: State, k: Key, d: Direction)
    requires Inv(s) && s.sync.Idle? && Inv(u) && ReadSince(s, u, k) && ReadIn(s, u, k) && IsNumericUser(k.user)
    ensures OnItsWay(Step(u, EndRead), k, d, Delivered(s.accepted, k, d) + Outstanding(s, k, d))
  {
    assert k in u.sync.delta ==> k in Numeric(u.sync.delta);
    assert k in s.registry ==> Read(u.sync.delta, k, d) >= Owed(s.storages[s.registry[k]]).Of(d);
    assert Outstanding(s, k, d) <= Read(u.sync.delta, k, d) || k !in s.registry;
    assert k !in s.registry ==> Read(u.sync.delta, k, d) >= 0;
  }

  // Everything that was counted for a numeric user when the cycle began, in both
  // directions, was then delivered, but for what sits on storages that were removed.
  lemma CycleDelivers(s: State, reading: seq<Event>, rest: seq<Event>, k: Key, d: Direction)
    requires Cycle(s, reading, rest, k) && IsNumericUser(k.user)
    ensures Delivered(AfterCycle(s, reading, rest).accepted, k, d)
            >= CountedBytes(s.bytes, k, d) - Detached(s, k, d)
  {
    ReachableInv(s);
    LedgerBalances(s, k, d);
    StartsReading(s, k);
    ReadRun(s, Step(s, StartRead), reading, k);
    var u := Snapshot(s, reading);
    EndsReading(s, u, k, d);
    StepKeepsInv(u, EndRead);
    OnItsWayRun(Step(u, EndRead), rest, k, d, Delivered(s.accepted, k, d) + Outstanding(s, k, d));
  }

  // There is such a cycle for every key and from every state in which the syncer is
  // idle.
  lemma SomeCycle(s: State, k: Key) returns (reading: seq<Event>, rest: seq<Event>)
    requires Reachable(s) && s.sync.Idle?
    ensures Cycle(s, reading, rest, k)
  {
    ReachableInv(s);
    reading := if k in s.registry then [ReadUp(k), ReadDown] else [];
    ReadsOne(s, k, reading);
    var u := Step(Snapshot(s, reading), EndRead);
    if u.sync.Idle? {
      rest := [];
    } else {
      rest := [Push(true), CommitKey(k), EndCommit];
      CommitsOne(u, k);
    }
  }

  lemma ReadsOne(s: State, k: Key, reading: seq<Event>)
    requires Inv(s) && s.sync.Idle? && reading == if k in s.registry then [ReadUp(k), ReadDown] else []
    ensures ReadIn(s, Snapshot(s, reading), k) && Snapshot(s, reading).sync.delta.Keys <= {k}
  {
    var v := Step(s, StartRead);
    if k in s.registry {
      assert reading[1..] == [ReadDown] && [ReadDown][1..] == [];
      assert Execute(v, reading) == Execute(Step(v, ReadUp(k)), [ReadDown]);
      assert Execute(Step(v, ReadUp(k)), [ReadDown]) == Execute(Step(Step(v, ReadUp(k)), ReadDown), []);
    }
  }

  lemma CommitsOne(u: State, k: Key)
    requires u.sync.Pushing? && u.sync.delta.Keys <= {k}
    ensures Execute(u, [Push(true), CommitKey(k), EndCommit]).sync.Idle?
  {
    var events := [Push(true), CommitKey(k), EndCommit];
    assert events[1..] == [CommitKey(k), EndCommit] && events[1..][1..] == [EndCommit] && [EndCommit][1..] == [];
    var v := Step(u, Push(true));
    var w := Step(v, CommitKey(k));
    assert w.sync.left == map[];
    assert Execute(u, events) == Execute(v, events[1..]);
    assert Execute(v, events[1..]) == Execute(w, [EndCommit]);
    assert Execute(w, [EndCommit]) == Execute(Step(w, EndCommit), []);
  }

  // A failed push leaves everything as it was, and the syncer idle for the next snapshot.
  lemma FailedPushChangesNothing(s: State)
    requires s.sync.Pushing?
    ensures Step(s, Push(false)) == s.(sync := Idle)
  {}

  // ------------------------------------------------------------------- removing

  // A user that the syncer is told is active when a removal begins keeps its counters
  // through it.
  lemma ActiveStays(s: State, active: set<string>, events: seq<Event>, k: Key)
    requires s.sync.Idle? && k.user in active && k in s.registry
    requires forall e :: e in events ==> !e.EndRemove?
    ensures var v := Execute(Step(s, StartRemove(active)), events);
            k in v.registry && v.registry[k] == s.registry[k]
  {
    ActiveStaysOn(Step(s, StartRemove(active)), events, active, k);
  }

  lemma {:induction false} ActiveStaysOn(v: State, events: seq<Event>, active: set<string>, k: Key)
    requires v.sync.Removing? && v.sync.active == active && k.user in active && k in v.registry
    requires v.sync.checked.Some? ==> v.sync.checked.value != k
    requires forall e :: e in events ==> !e.EndRemove?
    ensures k in Execute(v, events).registry && Execute(v, events).registry[k] == v.registry[k]
    decreases |events|
  {
    if events != [] {
      assert events[0] in events;
      ActiveStaysOn(Step(v, events[0]), events[1..], active, k);
    }
  }

  // What owes something when it is checked is not about to be deleted.
  lemma OwingIsNotDeleted(v: State, k: Key)
    requires v.sync.Removing? && Registered(v, k) && Owed(v.storages[v.registry[k]]) != Usage(0, 0)
    requires v.sync.checked != Some(k)
    ensures Step(v, CheckAbsent(k)).sync.checked != Some(k)
  {}

  // A user that is not active and owes nothing is gone after its check and delete,
  // whatever is registered or counted for others in between.
  lemma AbsentGoes(v: State, between: seq<Event>, k: Key)
    requires v.sync.Removing? && Registered(v, k) && k.user !in v.sync.active
    requires Owed(v.storages[v.registry[k]]) == Usage(0, 0)
    requires forall e :: e in between ==> e.Register? || e.Count?
    ensures k !in Step(Execute(Step(v, CheckAbsent(k)), between), DeleteAbsent).registry
  {
    StaysChecked(Step(v, CheckAbsent(k)), between, k);
  }

  lemma {:induction false} StaysChecked(v: State, between: seq<Event>, k: Key)
    requires v.sync.Removing? && v.sync.checked == Some(k) && forall e :: e in between ==> e.Register? || e.Count?
    ensures Execute(v, between).sync == v.sync
    decreases |between|
  {
    if between != [] {
      assert between[0] in between;
      StaysChecked(Step(v, between[0]), between[1..], k);
    }
  }

  // ------------------------------------------------------------------- connections

  // Counting adds the bytes to the key of the storage, in the one direction.
  lemma CountingAdds(s: State, i: nat, d: Direction, n: int, k: Key, x: Direction)
    requires i < |s.storages| && n > 0
    ensures CountedBytes(Step(s, Count(i, d, n)).bytes, k, x)
            == CountedBytes(s.bytes, k, x) + if k == s.storages[i].key && x == d then n else 0
  {
    var more := Step(s, Count(i, d, n)).bytes;
    assert more[..|s.bytes|] == s.bytes;
  }

  // A key that has no storage gets one of its own, and one that has keeps it.
  lemma RegisteringRegisters(s: State, k: Key)
    requires Inv(s)
    ensures var s' := Step(s, Register(k));
            && Registered(s', k) && s'.storages[s'.registry[k]].key == k
            && (k in s.registry ==> s' == s)
            && (k !in s.registry ==> s'.registry[k] == |s.storages|)
  {}
}
