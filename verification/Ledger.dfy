/**
 The traffic ledger over whole runs: connections count bytes at any moment, the
 syncer removes absent users, takes a snapshot, pushes it and commits it only
 when the push succeeded (panelapi/sync.go, counter/counter.go).

 The syncer is one goroutine, but between any two of its atomic steps anything
 may be counted or registered: every load of a counter, the check and the delete
 of a removal, the push and the commit of each user are separate steps.
 */
module Ledger {
  import opened Text

  datatype Direction = Up | Down

  datatype Usage = Usage(up: int, down: int) {
    function Of(d: Direction): int { if d.Up? then up else down }
    function Plus(d: Direction, n: int): Usage { if d.Up? then Usage(up + n, down) else Usage(up, down + n) }
    function Add(u: Usage): Usage { Usage(up + u.up, down + u.down) }
    function Minus(u: Usage): Usage { Usage(up - u.up, down - u.down) }
  }

  // A user key on an inbound tag.
  datatype Key = Key(tag: string, user: string)

  // The counters of one key. A connection keeps counting on the storage it was
  // given even after the storage was removed from the registry.
  datatype Storage = Storage(key: Key, counted: Usage, committed: Usage)

  datatype Sync =
    | Idle
    // RemoveAbsent is running; `checked` passed the check and is about to be deleted.
    | Removing(active: set<string>, checked: Option<Key>)
    // SnapshotDelta is running; `half` has had its upload read.
    | Reading(seen: set<Key>, half: Option<(Key, int)>, delta: map<Key, Usage>)
    | Pushing(delta: map<Key, Usage>)
    // The push was accepted; `left` is still to be committed.
    | Committing(left: map<Key, Usage>)

  // `bytes` logs what was counted through connections of each key, `accepted`
  // the numeric part of every push the panel accepted.
  datatype State = State(
    storages: seq<Storage>, registry: map<Key, nat>, sync: Sync,
    bytes: seq<(Key, Direction, int)>, accepted: seq<map<Key, Usage>>)

  datatype Event =
    | Register(key: Key)
    | Count(storage: nat, d: Direction, n: int)
    | StartRemove(active: set<string>) | CheckAbsent(key: Key) | DeleteAbsent | EndRemove
    | StartRead | ReadUp(key: Key) | ReadDown | EndRead
    | Push(ok: bool)
    | CommitKey(key: Key) | EndCommit

  const Initial := State([], map[], Idle, [], [])

  // The part of a delta that is pushed and committed.
  function Numeric(delta: map<Key, Usage>): map<Key, Usage> {
    map k | k in delta && IsNumericUser(k.user) :: delta[k]
  }

  predicate Registered(s: State, k: Key) {
    k in s.registry && s.registry[k] < |s.storages|
  }

  function Owed(st: Storage): Usage { st.counted.Minus(st.committed) }

  function StepRemove(s: State, e: Event): State
    requires s.sync.Removing?
  {
    match e
    case CheckAbsent(k) =>
      // A user that is not active and owes nothing.
      if Registered(s, k) && k.user !in s.sync.active && Owed(s.storages[s.registry[k]]) == Usage(0, 0)
      then s.(sync := Removing(s.sync.active, Some(k))) else s
    case DeleteAbsent =>
      if s.sync.checked.Some?
      then s.(registry := s.registry - {s.sync.checked.value}, sync := Removing(s.sync.active, None)) else s
    case EndRemove => s.(sync := Idle)
    case _ => s
  }

  function StepRead(s: State, e: Event): State
    requires s.sync.Reading?
  {
    var Reading(seen, half, delta) := s.sync;
    match e
    case ReadUp(k) =>
      if Registered(s, k) && k !in seen && half.None?
      then s.(sync := Reading(seen + {k}, Some((k, Owed(s.storages[s.registry[k]]).up)), delta)) else s
    case ReadDown =>
      if half.Some? && Registered(s, half.value.0) then
        var (k, up) := half.value;
        var d := Usage(up, Owed(s.storages[s.registry[k]]).down);
        s.(sync := Reading(seen, None, if d.up > 0 || d.down > 0 then delta[k := d] else delta))
      else s
    case EndRead =>
      if half.Some? then s
      // Without a numeric user there is nothing to push.
      else s.(sync := if Numeric(delta) == map[] then Idle else Pushing(delta))
    case _ => s
  }

  function StepCommit(s: State, e: Event): State
    requires s.sync.Committing?
  {
    match e
    case CommitKey(k) =>
      if k !in s.sync.left then s
      else
        var rest := s.(sync := Committing(s.sync.left - {k}));
        if !Registered(s, k) then rest
        else
          var i := s.registry[k];
          var st := s.storages[i];
          rest.(storages := s.storages[i := st.(committed := st.committed.Add(s.sync.left[k]))])
    case EndCommit => if s.sync.left == map[] then s.(sync := Idle) else s
    case _ => s
  }

  function StepSync(s: State, e: Event): State {
    match s.sync
    case Idle =>
      if e.StartRemove? then s.(sync := Removing(e.active, None))
      else if e.StartRead? then s.(sync := Reading({}, None, map[]))
      else s
    case Removing(_, _) => StepRemove(s, e)
    case Reading(_, _, _) => StepRead(s, e)
    case Pushing(delta) =>
      if !e.Push? then s
      else if !e.ok then s.(sync := Idle)
      else s.(sync := Committing(Numeric(delta)), accepted := s.accepted + [Numeric(delta)])
    case Committing(_) => StepCommit(s, e)
  }

  function Step(s: State, e: Event): State {
    match e
    case Register(k) =>
      if k in s.registry then s
      else
        var storage := Storage(k, Usage(0, 0), Usage(0, 0));
        s.(registry := s.registry[k := |s.storages|], storages := s.storages + [storage])
    case Count(i, d, n) =>
      if i < |s.storages| && n > 0 then
        var st := s.storages[i];
        s.(storages := s.storages[i := st.(counted := st.counted.Plus(d, n))], bytes := s.bytes + [(st.key, d, n)])
      else s
    case _ => StepSync(s, e)
  }

  function Execute(s: State, events: seq<Event>): State
    decreases |events|
  {
    if events == [] then s else Execute(Step(s, events[0]), events[1..])
  }

  // ------------------------------------------------------------------- totals

  // What connections of a key have counted.
  function CountedBytes(bytes: seq<(Key, Direction, int)>, k: Key, d: Direction): int {
    if bytes == [] then 0
    else
      var (k', d', n) := bytes[|bytes| - 1];
      CountedBytes(bytes[..|bytes| - 1], k, d) + if k' == k && d' == d then n else 0
  }

  // What accepted pushes carried for a key.
  function Delivered(accepted: seq<map<Key, Usage>>, k: Key, d: Direction): int {
    if accepted == [] then 0
    else
      var last := accepted[|accepted| - 1];
      Delivered(accepted[..|accepted| - 1], k, d) + if k in last then last[k].Of(d) else 0
  }

  function Counted(storages: seq<Storage>, k: Key, d: Direction): int {
    if storages == [] then 0
    else
      var last := storages[|storages| - 1];
      Counted(storages[..|storages| - 1], k, d) + if last.key == k then last.counted.Of(d) else 0
  }

  function Committed(storages: seq<Storage>, k: Key, d: Direction): int {
    if storages == [] then 0
    else
      var last := storages[|storages| - 1];
      Committed(storages[..|storages| - 1], k, d) + if last.key == k then last.committed.Of(d) else 0
  }

  // Bytes on storages of the key that are no longer registered, beyond what was
  // committed there: the registered one, if any, is `registered`.
  function DetachedFrom(storages: seq<Storage>, k: Key, d: Direction, registered: Option<nat>): int {
    if storages == [] then 0
    else
      var last := storages[|storages| - 1];
      DetachedFrom(storages[..|storages| - 1], k, d, registered)
      + if last.key == k && registered != Some(|storages| - 1) then Owed(last).Of(d) else 0
  }

  function At(s: State, k: Key): Option<nat> { if k in s.registry then Some(s.registry[k]) else None }

  function Detached(s: State, k: Key, d: Direction): int { DetachedFrom(s.storages, k, d, At(s, k)) }

  // Accepted by the panel but not yet committed.
  function Uncommitted(s: State, k: Key, d: Direction): int {
    if s.sync.Committing? && k in s.sync.left then s.sync.left[k].Of(d) else 0
  }

  // Bytes of the registered storage that no accepted push has carried yet.
  function Outstanding(s: State, k: Key, d: Direction): int {
    if Registered(s, k) then Owed(s.storages[s.registry[k]]).Of(d) - Uncommitted(s, k, d) else 0
  }

  // ---------------------------------------------------------------- invariant

  predicate Within(u: Usage, st: Storage) {
    0 <= u.up <= Owed(st).up && 0 <= u.down <= Owed(st).down
  }

  ghost predicate Sane(s: State) {
    && (forall k :: k in s.registry ==> s.registry[k] < |s.storages| && s.storages[s.registry[k]].key == k)
    && (forall st :: st in s.storages ==> Within(Usage(0, 0), st))
  }

  // Everything in the delta is owed by a registered storage.
  ghost predicate Backed(s: State, delta: map<Key, Usage>) {
    forall k :: k in delta ==> Registered(s, k) && Within(delta[k], s.storages[s.registry[k]])
  }

  ghost predicate SyncOk(s: State) {
    match s.sync
    case Idle => true
    case Removing(_, _) => true
    case Reading(seen, half, delta) =>
      && delta.Keys <= seen && Backed(s, delta)
      && (half.Some? ==> half.value.0 in seen && half.value.0 !in delta)
      && (half.Some? ==> Registered(s, half.value.0))
      && (half.Some? ==> 0 <= half.value.1 <= Owed(s.storages[s.registry[half.value.0]]).up)
    case Pushing(delta) => Backed(s, delta)
    case Committing(left) => Backed(s, left)
  }

  ghost predicate Balanced(s: State) {
    forall k, d ::
      && CountedBytes(s.bytes, k, d) == Counted(s.storages, k, d)
      && Delivered(s.accepted, k, d) == Committed(s.storages, k, d) + Uncommitted(s, k, d)
  }

  ghost predicate OnlyNumeric(s: State) {
    forall m, k :: m in s.accepted && k in m ==> IsNumericUser(k.user)
  }

  ghost predicate Inv(s: State) { Sane(s) && SyncOk(s) && Balanced(s) && OnlyNumeric(s) }

  lemma {:induction false} UpdateTotals(storages: seq<Storage>, i: nat, st: Storage, k: Key, d: Direction)
    requires i < |storages| && st.key == storages[i].key
    ensures Counted(storages[i := st], k, d)
            == Counted(storages, k, d) + if st.key == k then st.counted.Of(d) - storages[i].counted.Of(d) else 0
    ensures Committed(storages[i := st], k, d)
            == Committed(storages, k, d) + if st.key == k then st.committed.Of(d) - storages[i].committed.Of(d) else 0
  {
    var n := |storages| - 1;
    if i == n {
      assert storages[i := st][..n] == storages[..n];
    } else {
      assert storages[i := st][..n] == storages[..n][i := st];
      UpdateTotals(storages[..n], i, st, k, d);
    }
  }

  predicate OwesNoLess(st: Storage, than: Storage) {
    Owed(than).up <= Owed(st).up && Owed(than).down <= Owed(st).down
  }

  // Storages only grow: what a delta was backed by keeps backing it.
  ghost predicate Grows(s: State, s': State) {
    && s'.sync == s.sync
    && (forall k :: k in s.registry ==> k in s'.registry && s'.registry[k] == s.registry[k])
    && |s.storages| <= |s'.storages|
    && (forall i :: 0 <= i < |s.storages| ==> OwesNoLess(s'.storages[i], s.storages[i]))
  }

  lemma GrowingKeepsSync(s: State, s': State)
    requires SyncOk(s) && Grows(s, s')
    ensures SyncOk(s')
  {}

  lemma RegisterKeepsInv(s: State, k: Key)
    requires Inv(s) && k !in s.registry
    ensures Inv(Step(s, Register(k)))
  {
    var s' := Step(s, Register(k));
    assert s'.storages[..|s.storages|] == s.storages;
    GrowingKeepsSync(s, s');
    RegisterStaysSane(s, k);
    forall k', d
      ensures Counted(s'.storages, k', d) == Counted(s.storages, k', d)
      ensures Committed(s'.storages, k', d) == Committed(s.storages, k', d)
    {}
  }

  lemma RegisterStaysSane(s: State, k: Key)
    requires Sane(s) && k !in s.registry
    ensures Sane(Step(s, Register(k)))
  {
    var s' := Step(s, Register(k));
    assert forall st :: st in s'.storages ==> st in s.storages || st == Storage(k, Usage(0, 0), Usage(0, 0));
  }

  // One storage changes, keeping its key and owing nothing negative.
  lemma UpdateStaysSane(s: State, s': State, i: nat, st: Storage)
    requires Sane(s) && i < |s.storages| && st.key == s.storages[i].key && Within(Usage(0, 0), st)
    requires s'.storages == s.storages[i := st] && s'.registry == s.registry
    ensures Sane(s')
  {
    assert forall x :: x in s'.storages ==> x in s.storages || x == st;
  }

  lemma CountKeepsInv(s: State, i: nat, d: Direction, n: int)
    requires Inv(s) && i < |s.storages| && n > 0
    ensures Inv(Step(s, Count(i, d, n)))
  {
    var st := s.storages[i];
    var st' := st.(counted := st.counted.Plus(d, n));
    var s' := Step(s, Count(i, d, n));
    assert st in s.storages;
    UpdateStaysSane(s, s', i, st');
    GrowingKeepsSync(s, s');
    assert s'.bytes[..|s.bytes|] == s.bytes;
    forall k, e
      ensures CountedBytes(s'.bytes, k, e) == Counted(s'.storages, k, e)
      ensures Committed(s'.storages, k, e) == Committed(s.storages, k, e)
    {
      UpdateTotals(s.storages, i, st', k, e);
    }
  }

  lemma RemoveKeepsInv(s: State, e: Event)
    requires Inv(s) && s.sync.Removing?
    ensures Inv(StepRemove(s, e))
  {
    var s' := StepRemove(s, e);
    assert s'.storages == s.storages && !s'.sync.Committing?;
    assert forall k :: k in s'.registry ==> k in s.registry && s'.registry[k] == s.registry[k];
  }

  lemma ReadKeepsInv(s: State, e: Event)
    requires Inv(s) && s.sync.Reading?
    ensures Inv(StepRead(s, e))
  {
    var s' := StepRead(s, e);
    assert forall k :: Registered(s, k) ==> s.storages[s.registry[k]] in s.storages;
    assert s' == s.(sync := s'.sync) && !s'.sync.Committing?;
    ReadKeepsSync(s, e);
  }

  lemma ReadKeepsSync(s: State, e: Event)
    requires s.sync.Reading? && SyncOk(s)
    requires forall k :: Registered(s, k) ==> Within(Usage(0, 0), s.storages[s.registry[k]])
    ensures SyncOk(StepRead(s, e))
  {}

  lemma PushKeepsInv(s: State, ok: bool)
    requires Inv(s) && s.sync.Pushing?
    ensures Inv(Step(s, Push(ok)))
  {
    var s' := Step(s, Push(ok));
    if ok {
      assert s'.accepted[..|s.accepted|] == s.accepted;
      assert forall m :: m in s'.accepted ==> m in s.accepted || m == Numeric(s.sync.delta);
      forall k, d
        ensures Delivered(s'.accepted, k, d) == Delivered(s.accepted, k, d) + Uncommitted(s', k, d)
      {}
    }
  }

  lemma CommitKeepsInv(s: State, k: Key)
    requires Inv(s) && s.sync.Committing? && k in s.sync.left
    ensures Inv(StepCommit(s, CommitKey(k)))
  {
    var s' := StepCommit(s, CommitKey(k));
    var i := s.registry[k];
    var st := s.storages[i];
    var st' := st.(committed := st.committed.Add(s.sync.left[k]));
    assert st in s.storages;
    UpdateStaysSane(s, s', i, st');
    CommitKeepsBacked(s, k);
    forall k', d
      ensures Counted(s'.storages, k', d) == Counted(s.storages, k', d)
      ensures Committed(s'.storages, k', d) + Uncommitted(s', k', d)
              == Committed(s.storages, k', d) + Uncommitted(s, k', d)
    {
      UpdateTotals(s.storages, i, st', k', d);
    }
  }

  // Committing one key touches no storage that backs another.
  lemma CommitKeepsBacked(s: State, k: Key)
    requires Sane(s) && s.sync.Committing? && k in s.sync.left && Backed(s, s.sync.left)
    ensures SyncOk(StepCommit(s, CommitKey(k)))
  {
    var s' := StepCommit(s, CommitKey(k));
    forall k' | k' in s'.sync.left
      ensures Registered(s', k') && Within(s'.sync.left[k'], s'.storages[s'.registry[k']])
    {
      assert s.storages[s.registry[k]].key == k && s.storages[s.registry[k']].key == k';
    }
  }

  lemma SyncKeepsInv(s: State, e: Event)
    requires Inv(s)
    ensures Inv(StepSync(s, e))
  {
    match s.sync
    case Idle =>
    case Removing(_, _) => RemoveKeepsInv(s, e);
    case Reading(_, _, _) => ReadKeepsInv(s, e);
    case Pushing(_) =>
      if e.Push? {
        PushKeepsInv(s, e.ok);
      }
    case Committing(left) =>
      if e.CommitKey? && e.key in left {
        CommitKeepsInv(s, e.key);
      }
  }

  lemma StepKeepsInv(s: State, e: Event)
    requires Inv(s)
    ensures Inv(Step(s, e))
  {
    match e
    case Register(k) =>
      if k !in s.registry {
        RegisterKeepsInv(s, k);
      }
    case Count(i, d, n) =>
      if i < |s.storages| && n > 0 {
        CountKeepsInv(s, i, d, n);
      }
    case _ => SyncKeepsInv(s, e);
  }

  lemma {:induction false} ExecuteKeepsInv(s: State, events: seq<Event>)
    requires Inv(s)
    ensures Inv(Execute(s, events))
    decreases |events|
  {
    if events != [] {
      StepKeepsInv(s, events[0]);
      ExecuteKeepsInv(Step(s, events[0]), events[1..]);
    }
  }

  // ------------------------------------------------------------ what it means

  lemma {:induction false} DetachedIsTheRest(storages: seq<Storage>, k: Key, d: Direction, registered: Option<nat>)
    requires registered.Some? && registered.value < |storages| ==> storages[registered.value].key == k
    ensures DetachedFrom(storages, k, d, registered)
            == Counted(storages, k, d) - Committed(storages, k, d)
               - if registered.Some? && registered.value < |storages| then Owed(storages[registered.value]).Of(d) else 0
  {
    if storages != [] {
      DetachedIsTheRest(storages[..|storages| - 1], k, d, registered);
    }
  }

  lemma {:induction false} DetachedNotNegative(storages: seq<Storage>, k: Key, d: Direction, registered: Option<nat>)
    requires forall st :: st in storages ==> Within(Usage(0, 0), st)
    ensures DetachedFrom(storages, k, d, registered) >= 0
  {
    if storages != [] {
      assert storages[|storages| - 1] in storages;
      DetachedNotNegative(storages[..|storages| - 1], k, d, registered);
    }
  }

  // Some interleaving of connections with sync cycles leads to `s`.
  ghost predicate Reachable(s: State) {
    exists events :: Execute(Initial, events) == s
  }

  lemma InitialInv()
    ensures Inv(Initial)
  {}

  lemma ReachableInv(s: State)
    requires Reachable(s)
    ensures Inv(s)
  {
    var events :| Execute(Initial, events) == s;
    InitialInv();
    ExecuteKeepsInv(Initial, events);
  }

  // Conservation: every byte counted for a user on a tag was carried by exactly
  // one accepted push, or is outstanding, or sits on a storage that was removed
  // while a connection still held it. Failed pushes lose and repeat nothing.
  lemma LedgerBalances(s: State, k: Key, d: Direction)
    requires Reachable(s)
    ensures CountedBytes(s.bytes, k, d) == Delivered(s.accepted, k, d) + Outstanding(s, k, d) + Detached(s, k, d)
    ensures Outstanding(s, k, d) >= 0 && Detached(s, k, d) >= 0
  {
    ReachableInv(s);
    DetachedIsTheRest(s.storages, k, d, At(s, k));
    DetachedNotNegative(s.storages, k, d, At(s, k));
    if k in s.registry {
      assert s.storages[s.registry[k]] in s.storages;
    } else {
      assert Uncommitted(s, k, d) == 0;
    }
  }

  // While nothing is being committed, what was committed is what was accepted.
  lemma CommittedIsAccepted(s: State, k: Key, d: Direction)
    requires Reachable(s) && !s.sync.Committing?
    ensures Committed(s.storages, k, d) == Delivered(s.accepted, k, d)
  {
    ReachableInv(s);
  }

  // Traffic that could not be resolved to a user id is never pushed: it stays
  // outstanding or detached.
  lemma UnresolvedIsNeverDelivered(s: State, k: Key, d: Direction)
    requires Reachable(s) && !IsNumericUser(k.user)
    ensures Delivered(s.accepted, k, d) == 0
  {
    ReachableInv(s);
    NothingDelivered(s.accepted, k, d);
  }

  lemma {:induction false} NothingDelivered(accepted: seq<map<Key, Usage>>, k: Key, d: Direction)
    requires forall m :: m in accepted ==> k !in m
    ensures Delivered(accepted, k, d) == 0
  {
    if accepted != [] {
      assert accepted[|accepted| - 1] in accepted;
      NothingDelivered(accepted[..|accepted| - 1], k, d);
    }
  }

  // Bytes counted after their storage was removed, or between the check and the
  // delete of its removal.
  predicate Late(s: State, e: Event) {
    match e
    case Count(i, _, _) => i < |s.storages| && At(s, s.storages[i].key) != Some(i)
    case DeleteAbsent =>
      s.sync.Removing? && s.sync.checked.Some? && Registered(s, s.sync.checked.value)
      && Owed(s.storages[s.registry[s.sync.checked.value]]) != Usage(0, 0)
    case _ => false
  }

  // Detached bytes come only from such late counting: a removal by itself, a
  // sync cycle or a registration detaches nothing.
  lemma OnlyLateBytesDetach(s: State, e: Event, k: Key, d: Direction)
    requires Reachable(s) && !Late(s, e)
    ensures Detached(Step(s, e), k, d) == Detached(s, k, d)
  {
    ReachableInv(s);
    var s' := Step(s, e);
    StepKeepsInv(s, e);
    DetachedIsTheRest(s.storages, k, d, At(s, k));
    DetachedIsTheRest(s'.storages, k, d, At(s', k));
    SettledMoves(s, e, k, d);
  }

  // Counted minus committed minus what the registered storage owes.
  function Settled(s: State, k: Key, d: Direction): int {
    Counted(s.storages, k, d) - Committed(s.storages, k, d)
    - if Registered(s, k) then Owed(s.storages[s.registry[k]]).Of(d) else 0
  }

  lemma SettledMoves(s: State, e: Event, k: Key, d: Direction)
    requires Inv(s) && !Late(s, e)
    ensures Settled(Step(s, e), k, d) == Settled(s, k, d)
  {
    var s' := Step(s, e);
    match e
    case Register(r) =>
      if r !in s.registry {
        assert s'.storages[..|s.storages|] == s.storages;
      }
    case Count(i, x, n) =>
      if i < |s.storages| && n > 0 {
        RegisteredUpdateSettled(s, s', i, k, d);
      }
    case CommitKey(c) =>
      CommitSettles(s, c, k, d);
    case DeleteAbsent =>
    case _ =>
      SyncStepsKeep(s, e);
  }

  lemma CommitSettles(s: State, c: Key, k: Key, d: Direction)
    requires Inv(s)
    ensures Settled(Step(s, CommitKey(c)), k, d) == Settled(s, k, d)
  {
    if s.sync.Committing? && c in s.sync.left {
      RegisteredUpdateSettled(s, Step(s, CommitKey(c)), s.registry[c], k, d);
    }
  }

  // The other steps of the syncer touch neither a storage nor the registry.
  lemma SyncStepsKeep(s: State, e: Event)
    requires !e.Register? && !e.Count? && !e.CommitKey? && !e.DeleteAbsent?
    ensures Step(s, e).storages == s.storages && Step(s, e).registry == s.registry
  {}

  // Whatever a registered storage counts or commits moves both sides alike.
  lemma RegisteredUpdateSettled(s: State, s': State, i: nat, k: Key, d: Direction)
    requires Sane(s) && i < |s.storages| && At(s, s.storages[i].key) == Some(i)
    requires |s'.storages| == |s.storages| && s'.storages[i].key == s.storages[i].key
    requires s'.storages == s.storages[i := s'.storages[i]] && s'.registry == s.registry
    ensures Settled(s', k, d) == Settled(s, k, d)
  {
    UpdateTotals(s.storages, i, s'.storages[i], k, d);
  }
}
