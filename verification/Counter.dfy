/**
 The counters themselves: storages that connections and the syncer update in
 place, one counter per inbound tag, and the syncer's flush.
 */
module Counter {
  import opened Text
  import opened Ledger
  import opened Sequences

  class TrafficStorage {
    var up: int
    var down: int
    var committedUp: int
    var committedDown: int

    constructor ()
      ensures up == down == committedUp == committedDown == 0
    {
      up, down, committedUp, committedDown := 0, 0, 0, 0;
    }

    ghost function Owed(): Usage
      reads this
    {
      Usage(up - committedUp, down - committedDown)
    }

    ghost function CommittedUsage(): Usage
      reads this
    {
      Usage(committedUp, committedDown)
    }
  }

  // A connection that counts into the storage of its user, which it shares with the
  // user's other connections, and tells the session about the bytes if it has one.
  class ConnCounter {
    const storage: TrafficStorage
    const hasActivity: bool
    // What the activity callback was called with, and what was counted.
    var reported: seq<int>
    ghost var counted: int

    // The session hears of every byte that is counted, and of nothing else.
    ghost predicate Valid()
      reads this
    {
      && (forall n :: n in reported ==> n > 0)
      && SumOf(reported) == if hasActivity then counted else 0
    }

    constructor (storage: TrafficStorage, hasActivity: bool)
      ensures Valid() && this.storage == storage && this.hasActivity == hasActivity && reported == []
    {
      this.storage, this.hasActivity, reported, counted := storage, hasActivity, [], 0;
    }

    // The callback comes first, so that a session is opened before its bytes count.
    method Report(n: int)
      requires Valid() && n > 0
      modifies this
      ensures Valid() && counted == old(counted) + n
      ensures reported == if hasActivity then old(reported) + [n] else old(reported)
    {
      if hasActivity {
        SumOfOneMore(reported, n);
        reported := reported + [n];
      }
      counted := counted + n;
    }

    method CountUp(n: int)
      requires Valid()
      modifies this, storage`up
      ensures Valid() && storage.up - old(storage.up) == counted - old(counted) == if n > 0 then n else 0
      ensures reported == if n > 0 && hasActivity then old(reported) + [n] else old(reported)
    {
      if n <= 0 {
        return;
      }
      Report(n);
      storage.up := storage.up + n;
    }

    method CountDown(n: int)
      requires Valid()
      modifies this, storage`down
      ensures Valid() && storage.down - old(storage.down) == counted - old(counted) == if n > 0 then n else 0
      ensures reported == if n > 0 && hasActivity then old(reported) + [n] else old(reported)
    {
      if n <= 0 {
        return;
      }
      Report(n);
      storage.down := storage.down + n;
    }
  }

  function Delta(delta: map<string, Usage>, user: string): Usage {
    if user in delta then delta[user] else Usage(0, 0)
  }

  // The users that are active or owe something.
  ghost function StillNeeded(counters: map<string, TrafficStorage>, active: set<string>): map<string, TrafficStorage>
    reads counters.Values
  {
    map u | u in counters && (u in active || counters[u].Owed() != Usage(0, 0)) :: counters[u]
  }

  class TrafficCounter {
    var counters: map<string, TrafficStorage>

    // No two users share a storage.
    ghost predicate Valid()
      reads this
    {
      forall u, v :: u in counters && v in counters && counters[u] == counters[v] ==> u == v
    }

    constructor ()
      ensures counters == map[]
    {
      counters := map[];
    }

    method GetCounter(user: string) returns (s: TrafficStorage)
      requires Valid()
      modifies this`counters
      ensures Valid() && user in counters && s == counters[user]
      ensures user in old(counters) ==> counters == old(counters)
      ensures user !in old(counters) ==>
                counters == old(counters)[user := s] && fresh(s) && s.Owed() == s.CommittedUsage() == Usage(0, 0)
    {
      if user in counters {
        return counters[user];
      }
      s := new TrafficStorage();
      counters := counters[user := s];
    }

    // What each user owes, leaving out those who owe nothing.
    method SnapshotDelta() returns (out: map<string, Usage>)
      ensures forall u :: u in out <==> u in counters && (counters[u].Owed().up > 0 || counters[u].Owed().down > 0)
      ensures forall u :: u in out ==> out[u] == counters[u].Owed()
    {
      out := map[];
      var todo := counters.Keys;
      while todo != {}
        invariant todo <= counters.Keys
        invariant forall u :: u in out <==>
                    u in counters && u !in todo && (counters[u].Owed().up > 0 || counters[u].Owed().down > 0)
        invariant forall u :: u in out ==> out[u] == counters[u].Owed()
      {
        var user :| user in todo;
        var s := counters[user];
        var up := s.up - s.committedUp;
        var down := s.down - s.committedDown;
        if up > 0 || down > 0 {
          out := out[user := Usage(up, down)];
        }
        todo := todo - {user};
      }
    }

    // Commits each user's part of a snapshot; users that are gone are skipped.
    method CommitSnapshot(snapshot: map<string, Usage>)
      requires Valid()
      modifies (set u | u in counters :: counters[u])`committedUp, (set u | u in counters :: counters[u])`committedDown
      ensures forall u :: u in counters ==>
                counters[u].CommittedUsage() == old(counters[u].CommittedUsage()).Add(Delta(snapshot, u))
    {
      var todo := snapshot.Keys;
      while todo != {}
        invariant todo <= snapshot.Keys
        invariant forall u :: u in counters ==>
                    counters[u].CommittedUsage()
                    == if u in todo then old(counters[u].CommittedUsage())
                       else old(counters[u].CommittedUsage()).Add(Delta(snapshot, u))
      {
        var user :| user in todo;
        if user in counters {
          var s := counters[user];
          s.committedUp := s.committedUp + snapshot[user].up;
          s.committedDown := s.committedDown + snapshot[user].down;
        }
        todo := todo - {user};
      }
    }

    // Forgets the users that are not active and owe nothing; their storages stay
    // as they are for the connections that still hold them.
    method RemoveAbsent(active: set<string>)
      requires Valid()
      modifies this`counters
      ensures Valid()
      ensures counters == StillNeeded(old(counters), active)
    {
      var todo := counters.Keys;
      while todo != {}
        invariant todo <= old(counters).Keys
        invariant forall u :: u in counters <==>
                    u in old(counters) && (u in todo || u in active || old(counters)[u].Owed() != Usage(0, 0))
        invariant forall u :: u in counters ==> counters[u] == old(counters)[u]
      {
        var user :| user in todo;
        if user !in active {
          var s := counters[user];
          if s.up == s.committedUp && s.down == s.committedDown {
            counters := counters - {user};
          }
        }
        todo := todo - {user};
      }
    }
  }

  type Deltas = map<string, map<string, Usage>>

  function DeltaAt(deltas: Deltas, tag: string, user: string): Usage {
    if tag in deltas then Delta(deltas[tag], user) else Usage(0, 0)
  }

  predicate Positive(u: Usage) { u.up > 0 || u.down > 0 }

  class Hook {
    var byInbound: map<string, TrafficCounter>

    ghost function Storages(): set<TrafficStorage>
      reads this, byInbound.Values
    {
      set t, u | t in byInbound && u in byInbound[t].counters :: byInbound[t].counters[u]
    }

    ghost predicate Registered(tag: string, user: string)
      reads this, byInbound.Values
    {
      tag in byInbound && user in byInbound[tag].counters
    }

    ghost function StorageOf(tag: string, user: string): TrafficStorage
      requires Registered(tag, user)
      reads this, byInbound.Values
    {
      byInbound[tag].counters[user]
    }

    // Every tag has its own counter and no two users share a storage.
    ghost predicate Valid()
      reads this, byInbound.Values
    {
      && (forall t :: t in byInbound ==> byInbound[t].Valid())
      && (forall t, t' :: t in byInbound && t' in byInbound && byInbound[t] == byInbound[t'] ==> t == t')
      && (forall t, t', u, v :: t != t' && Registered(t, u) && Registered(t', v) ==>
           StorageOf(t, u) != StorageOf(t', v))
    }

    // The counter of a tag, made on first use.
    method Tc(tag: string) returns (c: TrafficCounter)
      requires Valid()
      modifies this`byInbound
      ensures Valid()
      ensures var key := if tag == "" then "default" else tag;
              && key in byInbound && c == byInbound[key]
              && (key in old(byInbound) ==> byInbound == old(byInbound))
              && (key !in old(byInbound) ==> byInbound == old(byInbound)[key := c] && fresh(c) && c.counters == map[])
    {
      var key := if tag == "" then "default" else tag;
      if key in byInbound {
        return byInbound[key];
      }
      c := new TrafficCounter();
      byInbound := byInbound[key := c];
      forall t, u | Registered(t, u)
        ensures t != key && old(Registered(t, u)) && StorageOf(t, u) == old(StorageOf(t, u))
      {
        assert t != key ==> byInbound[t] == old(byInbound)[t];
      }
    }

    method SnapshotDelta() returns (out: Deltas)
      ensures forall t :: t in out ==> t in byInbound && out[t] != map[]
      ensures forall t, u :: DeltaAt(out, t, u)
                == if Registered(t, u) && Positive(StorageOf(t, u).Owed()) then StorageOf(t, u).Owed() else Usage(0, 0)
    {
      out := map[];
      var todo := byInbound.Keys;
      while todo != {}
        invariant todo <= byInbound.Keys
        invariant forall t :: t in out ==> t in byInbound && t !in todo && out[t] != map[]
        invariant forall t, u :: DeltaAt(out, t, u)
                    == if t !in todo && Registered(t, u) && Positive(StorageOf(t, u).Owed())
                       then StorageOf(t, u).Owed() else Usage(0, 0)
      {
        var tag :| tag in todo;
        var delta := byInbound[tag].SnapshotDelta();
        if delta != map[] {
          out := out[tag := delta];
        }
        todo := todo - {tag};
      }
    }

    method CommitSnapshot(snapshot: Deltas)
      requires Valid()
      modifies Storages()`committedUp, Storages()`committedDown
      ensures forall t, u :: Registered(t, u) ==>
                StorageOf(t, u).CommittedUsage() == old(StorageOf(t, u).CommittedUsage()).Add(DeltaAt(snapshot, t, u))
    {
      var todo := snapshot.Keys;
      while todo != {}
        invariant todo <= snapshot.Keys
        invariant forall t, u :: Registered(t, u) ==>
                    StorageOf(t, u).CommittedUsage()
                    == old(StorageOf(t, u).CommittedUsage())
                       .Add(if t in todo then Usage(0, 0) else DeltaAt(snapshot, t, u))
      {
        var tag :| tag in todo;
        if tag in byInbound {
          CommitTag(tag, snapshot[tag]);
        }
        todo := todo - {tag};
      }
    }

    method RemoveAbsent(active: set<string>)
      requires Valid()
      modifies byInbound.Values`counters
      ensures Valid()
      ensures forall t :: t in byInbound ==>
                byInbound[t].counters == StillNeeded(old(byInbound[t].counters), active)
    {
      var todo := byInbound.Keys;
      while todo != {}
        invariant todo <= byInbound.Keys
        invariant forall t :: t in byInbound ==>
                    byInbound[t].counters
                    == if t in todo then old(byInbound[t].counters) else StillNeeded(old(byInbound[t].counters), active)
        invariant Valid()
      {
        var tag :| tag in todo;
        RemoveFrom(tag, active);
        todo := todo - {tag};
      }
    }

    // Removes absent users from one tag and leaves every other tag alone.
    method RemoveFrom(tag: string, active: set<string>)
      requires Valid() && tag in byInbound
      modifies {byInbound[tag]}`counters
      ensures Valid()
      ensures byInbound[tag].counters == StillNeeded(old(byInbound[tag].counters), active)
    {
      byInbound[tag].RemoveAbsent(active);
      forall t, u | Registered(t, u)
        ensures old(Registered(t, u)) && StorageOf(t, u) == old(StorageOf(t, u))
      {
        if t != tag {
          assert byInbound[t].counters == old(byInbound[t].counters);
        }
      }
    }

    // Commits one tag's users and leaves every other tag alone.
    method CommitTag(tag: string, users: map<string, Usage>)
      requires Valid() && tag in byInbound
      modifies Storages()`committedUp, Storages()`committedDown
      ensures forall t, u :: Registered(t, u) ==>
                StorageOf(t, u).CommittedUsage()
                == old(StorageOf(t, u).CommittedUsage()).Add(if t == tag then Delta(users, u) else Usage(0, 0))
    {
      var c := byInbound[tag];
      assert forall u :: u in c.counters ==> Registered(tag, u) && StorageOf(tag, u) == c.counters[u];
      c.CommitSnapshot(users);
    }
  }

  // The numeric part of a delta, without tags that have none.
  method CommitDelta(delta: Deltas) returns (out: Deltas)
    ensures forall t :: t in out <==> t in delta && NumericRow(delta[t]) != map[]
    ensures forall t :: t in out ==> out[t] == NumericRow(delta[t])
    ensures forall t, u :: DeltaAt(out, t, u) == if IsNumericUser(u) then DeltaAt(delta, t, u) else Usage(0, 0)
  {
    out := map[];
    var todo := delta.Keys;
    while todo != {}
      invariant todo <= delta.Keys
      invariant forall t :: t in out <==> t in delta && t !in todo && NumericRow(delta[t]) != map[]
      invariant forall t :: t in out ==> out[t] == NumericRow(delta[t])
    {
      var tag :| tag in todo;
      var row := NumericUsers(delta[tag]);
      if row != map[] {
        out := out[tag := row];
      }
      todo := todo - {tag};
    }
    CommitDeltaAt(delta, out);
  }

  function NumericRow(users: map<string, Usage>): map<string, Usage> {
    map u | u in users && IsNumericUser(u) :: users[u]
  }

  lemma CommitDeltaAt(delta: Deltas, out: Deltas)
    requires forall t :: t in out <==> t in delta && NumericRow(delta[t]) != map[]
    requires forall t :: t in out ==> out[t] == NumericRow(delta[t])
    ensures forall t, u :: DeltaAt(out, t, u) == if IsNumericUser(u) then DeltaAt(delta, t, u) else Usage(0, 0)
  {
    forall t, u
      ensures DeltaAt(out, t, u) == if IsNumericUser(u) then DeltaAt(delta, t, u) else Usage(0, 0)
    {
      if t in delta {
        assert u in NumericRow(delta[t]) <==> u in delta[t] && IsNumericUser(u);
      }
    }
  }

  method NumericUsers(users: map<string, Usage>) returns (row: map<string, Usage>)
    ensures row == NumericRow(users)
  {
    row := map[];
    var todo := users.Keys;
    while todo != {}
      invariant todo <= users.Keys
      invariant forall u :: u in row <==> u in users && u !in todo && IsNumericUser(u)
      invariant forall u :: u in row ==> row[u] == users[u]
    {
      var user :| user in todo;
      if IsNumericUser(user) {
        row := row[user := users[user]];
      }
      todo := todo - {user};
    }
    assert row.Keys == NumericRow(users).Keys;
  }

  // Whether anything in a delta would be pushed.
  method HasTraffic(delta: Deltas) returns (has: bool)
    ensures has <==> exists t, u :: t in delta && u in delta[t] && IsNumericUser(u)
  {
    var tags := delta.Keys;
    has := false;
    while tags != {} && !has
      invariant tags <= delta.Keys
      invariant has ==> exists t, u :: t in delta && u in delta[t] && IsNumericUser(u)
      invariant !has ==> forall t, u :: t in delta && t !in tags && u in delta[t] ==> !IsNumericUser(u)
      decreases |tags|
    {
      var tag :| tag in tags;
      var users := delta[tag].Keys;
      while users != {} && !has
        invariant users <= delta[tag].Keys
        invariant has ==> exists t, u :: t in delta && u in delta[t] && IsNumericUser(u)
        invariant !has ==> forall u :: u in delta[tag] && u !in users ==> !IsNumericUser(u)
        decreases |users|
      {
        var user :| user in users;
        has := IsNumericUser(user);
        users := users - {user};
      }
      tags := tags - {tag};
    }
  }

  // What a flush commits for a user who owes `owed`.
  function Flushed(accept: bool, user: string, owed: Usage): Usage {
    if accept && IsNumericUser(user) && Positive(owed) then owed else Usage(0, 0)
  }

  // One flush of the syncer: snapshot, push, commit. `accept` says whether the
  // panel accepts the push. Every numeric user who owed anything is committed in
  // full when it does; nothing at all changes when it does not.
  method Flush(hook: Hook, accept: bool)
    requires hook.Valid()
    modifies hook.Storages()`committedUp, hook.Storages()`committedDown
    ensures forall t, u :: hook.Registered(t, u) ==>
              hook.StorageOf(t, u).CommittedUsage()
              == old(hook.StorageOf(t, u).CommittedUsage()).Add(Flushed(accept, u, old(hook.StorageOf(t, u).Owed())))
  {
    var delta := hook.SnapshotDelta();
    PushDelta(hook, delta, accept);
  }

  // Push and commit of a snapshot; without a numeric user nothing is pushed.
  method PushDelta(hook: Hook, delta: Deltas, accept: bool)
    requires hook.Valid()
    modifies hook.Storages()`committedUp, hook.Storages()`committedDown
    ensures forall t, u :: hook.Registered(t, u) ==>
              hook.StorageOf(t, u).CommittedUsage()
              == old(hook.StorageOf(t, u).CommittedUsage()).Add(
                   if accept && IsNumericUser(u) then DeltaAt(delta, t, u) else Usage(0, 0))
  {
    var has := HasTraffic(delta);
    if !has {
      NoTraffic(delta);
      return;
    }
    if !accept {
      return;
    }
    var numeric := CommitDelta(delta);
    hook.CommitSnapshot(numeric);
  }

  lemma NoTraffic(delta: Deltas)
    requires forall t, u :: t in delta && u in delta[t] ==> !IsNumericUser(u)
    ensures forall t, u :: IsNumericUser(u) ==> DeltaAt(delta, t, u) == Usage(0, 0)
  {}
}
