/**
 The syncer's user callback: apply the fetched list, and when that succeeds forget
 the counters of users that are gone (cmd/star1ight-agent/main.go).
 */
module Syncer {
  import opened Text
  import opened InboundTables
  import opened Inbounds
  import opened UserManager
  import opened Counter
  import opened Ledger
  import opened ListRuns

  // A counter may go only when its user is not present and owes nothing.
  ghost predicate MayGo(users: Users, user: string, owed: Usage) {
    owed == Usage(0, 0) && forall id :: id in users ==> Sprint(id) != user
  }

  // The counters that stay: of present users, and those that owe something.
  ghost function Remaining(counters: map<string, TrafficStorage>, users: Users): map<string, TrafficStorage>
    reads counters.Values
  {
    map u | u in counters && !MayGo(users, u, counters[u].Owed()) :: counters[u]
  }

  // Forgets the counters of users that are gone and owe nothing.
  method Forget(m: UserManager, hook: Hook)
    requires hook.Valid()
    modifies hook.byInbound.Values`counters
    ensures hook.Valid()
    ensures forall t :: t in hook.byInbound ==>
              hook.byInbound[t].counters == old(Remaining(hook.byInbound[t].counters, m.users))
  {
    var active := m.ActiveIDs();
    hook.RemoveAbsent(active);
  }

  // One round of users: the counters of absent users are forgotten only after the
  // list was applied to every inbound.
  method SyncUsers(m: UserManager, hook: Hook, inbounds: seq<Inbound>, list: seq<User>, stops: Stops)
    returns (ok: bool, ghost done: nat)
    requires m.Valid() && m.FollowsRun() && hook.Valid() && Distinct(inbounds)
    modifies m, m.idOf.Keys, inbounds`table, hook.byInbound.Values`counters
    ensures hook.Valid()
    ensures StopsAfter(inbounds, old(m.users), Next(list), stops, done) && (ok <==> done == |inbounds|)
    ensures forall t :: t in hook.byInbound ==>
              hook.byInbound[t].counters
              == old(if ok then Remaining(hook.byInbound[t].counters, Next(list)) else hook.byInbound[t].counters)
  {
    ok, done := ApplyBeside(m, hook, inbounds, list, stops);
    if ok {
      Forget(m, hook);
    }
  }

  // Applying a list does not touch the counters.
  method ApplyBeside(m: UserManager, hook: Hook, inbounds: seq<Inbound>, list: seq<User>, stops: Stops)
    returns (ok: bool, ghost done: nat)
    requires m.Valid() && m.FollowsRun() && hook.Valid() && Distinct(inbounds)
    modifies m, m.idOf.Keys, inbounds`table
    ensures hook.Valid() && (ok ==> m.users == Next(list))
    ensures StopsAfter(inbounds, old(m.users), Next(list), stops, done) && (ok <==> done == |inbounds|)
    ensures forall t :: t in hook.byInbound ==>
              Remaining(hook.byInbound[t].counters, Next(list))
              == old(Remaining(hook.byInbound[t].counters, Next(list)))
  {
    ok, done := ApplyList(m, inbounds, list, stops);
  }

  method ApplyList(m: UserManager, inbounds: seq<Inbound>, list: seq<User>, stops: Stops)
    returns (ok: bool, ghost done: nat)
    requires m.Valid() && m.FollowsRun() && Distinct(inbounds)
    modifies m, m.idOf.Keys, inbounds`table
    ensures m.users == if ok then Next(list) else old(m.users)
    ensures StopsAfter(inbounds, old(m.users), Next(list), stops, done) && (ok <==> done == |inbounds|)
  {
    ok, done := m.ApplyBox(inbounds, list, stops);
    assert m.run[..|m.run| - 1] == old(m.run);
  }
}
