/**
 The user manager: applies a new user list to the inbounds in place, and opens,
 updates and closes the limiter pairs of the users
 (cmd/star1ight-agent/user_manager.go).
 */
module UserManager {
  import opened Text
  import opened InboundTables
  import opened Inbounds
  import opened ListRuns
  import Int64
  import opened RateLimiter

  // ------------------------------------------------------------- limiter pairs

  // The settings of the two limiters of a user, one for each direction. Connections
  // share the pair, so it matters which object an id has.
  class LimiterPair {
    var rx: Settings
    var tx: Settings

    constructor (bytesPerSecond: int)
      ensures rx == tx == Tuned(UNSET, bytesPerSecond)
    {
      rx, tx := Tuned(UNSET, bytesPerSecond), Tuned(UNSET, bytesPerSecond);
    }

    method SetRate(bytesPerSecond: int)
      modifies this
      ensures rx == Tuned(old(rx), bytesPerSecond) && tx == Tuned(old(tx), bytesPerSecond)
    {
      rx := Tuned(rx, bytesPerSecond);
      tx := Tuned(tx, bytesPerSecond);
    }

    method Close()
      modifies this
      ensures rx == tx == SHUT
    {
      rx, tx := SHUT, SHUT;
    }
  }

  // The ids whose pairs go on existing, open and as they were, through a change
  // from one map of pairs to another; pairs that come in are new objects.
  ghost predicate KeepsPairs(limiters: map<nat, LimiterPair>, limiters': map<nat, LimiterPair>) {
    forall id :: id in limiters && id in limiters' ==> limiters[id] == limiters'[id]
  }

  // Who has a pair once `next` was applied.
  ghost predicate DomainFollows(perUser: bool, next: Users, prev: Users, before: map<nat, LimiterPair>,
                                limiters: map<nat, LimiterPair>)
  {
    forall id :: id in limiters <==> if id in next then Limited(perUser, next[id]) else id in before && id !in prev
  }

  // Applying a list a second time changes nothing about that.
  lemma KeepsTwice(perUser: bool, next: Users, prev: Users, before: map<nat, LimiterPair>, once: map<nat, LimiterPair>,
                   twice: map<nat, LimiterPair>)
    requires once == before || (DomainFollows(perUser, next, prev, before, once) && KeepsPairs(before, once))
    requires DomainFollows(perUser, next, prev, once, twice) && KeepsPairs(once, twice)
    ensures DomainFollows(perUser, next, prev, before, twice) && KeepsPairs(before, twice)
  {}

  // One more attempt, in terms of the run so far.
  lemma PairsStep(perUser: bool, run: seq<Attempt>, list: seq<User>, ok: bool, before: map<nat, LimiterPair>,
                  limiters: map<nat, LimiterPair>)
    requires before.Keys == PairsAfter(perUser, run)
    requires DomainFollows(perUser, Next(list), UsersAfter(run), before, limiters)
    ensures limiters.Keys == PairsAfter(perUser, run + [Attempt(list, ok)])
    ensures LastList(run + [Attempt(list, ok)]) == if ok then list else LastList(run)
  {
    assert (run + [Attempt(list, ok)])[..|run|] == run;
  }

  lemma StaysInStep(perUser: bool, run: seq<Attempt>, list: seq<User>, ok: bool, prev: Users,
                    before: map<nat, LimiterPair>, users: Users, limiters: map<nat, LimiterPair>)
    requires DomainFollows(perUser, Next(list), prev, before, limiters)
    requires users == UsersAfter(run + [Attempt(list, ok)])
    ensures ok && InStep(perUser, prev, before.Keys) ==> InStep(perUser, users, limiters.Keys)
  {}

  // A second attempt at a list, in terms of the tables before the first.
  lemma UpdatedTwice(inbounds: seq<Inbound>, t: seq<Table>, t': seq<Table>, t'': seq<Table>, prev: Users,
                     next: Users, ok: bool)
    requires Updated(inbounds, t, t', prev, next, false) && Updated(inbounds, t', t'', prev, next, ok)
    ensures Updated(inbounds, t, t'', prev, next, ok)
  {
    forall i | 0 <= i < |inbounds|
      ensures UpdatedAt(inbounds[i], t[i], t''[i], prev, next, ok)
    {
      assert UpdatedAt(inbounds[i], t[i], t'[i], prev, next, false)
             && UpdatedAt(inbounds[i], t'[i], t''[i], prev, next, ok);
      TouchedTwice(inbounds[i].kind, prev, next, t[i], t'[i], t''[i]);
      if ok {
        RetryConverges(inbounds[i].kind, prev, next, t[i], t'[i], t''[i]);
      }
    }
  }

  // The first `n` attempts fail.
  ghost predicate NonePasses(inbounds: seq<Inbound>, prev: Users, next: Users, attempts: seq<Stops>, n: nat) {
    n <= |attempts| && forall k :: 0 <= k < n ==> !Passes(inbounds, prev, next, attempts[k])
  }

  lemma NonePassesStep(inbounds: seq<Inbound>, prev: Users, next: Users, attempts: seq<Stops>, n: nat)
    requires NonePasses(inbounds, prev, next, attempts, n) && n < |attempts|
    requires !Passes(inbounds, prev, next, attempts[n])
    ensures NonePasses(inbounds, prev, next, attempts, n + 1)
  {}

  class UserManager {
    // Whether the build limits users at all.
    const perUser: bool
    // The pair of the whole node, if it is limited. It is none of the users' pairs.
    const nodePair: LimiterPair?
    var users: Users
    var bySecret: map<string, nat>
    var limiters: map<nat, LimiterPair>
    // The pairs that were ever made, each with the id it was made for.
    ghost var idOf: map<LimiterPair, nat>
    // The lists applied so far, and whether they succeeded.
    ghost var run: seq<Attempt>

    // Users and secrets are what the run of lists makes them, and so were the pairs.
    ghost predicate FollowedRun(pairs: map<nat, LimiterPair>)
      reads this`users, this`bySecret, this`run
    {
      users == UsersAfter(run) && bySecret == Secrets(LastList(run)) && pairs.Keys == PairsAfter(perUser, run)
    }

    ghost predicate FollowsRun()
      reads this`users, this`bySecret, this`limiters, this`run
    {
      FollowedRun(limiters)
    }

    // The pair its id has at present.
    ghost predicate Current(p: LimiterPair)
      requires p in idOf
      reads this`limiters, this`idOf
    {
      idOf[p] in limiters && limiters[idOf[p]] == p
    }

    ghost predicate OpenAs(p: LimiterPair, open: bool)
      reads p
    {
      p.rx == p.tx && p.rx.closed == !open
    }

    // Every pair ever made is either closed or the current pair of its id, never both.
    ghost predicate Valid()
      reads this`limiters, this`idOf, idOf.Keys
    {
      && (forall id :: id in limiters ==> limiters[id] in idOf && idOf[limiters[id]] == id)
      && (forall p :: p in idOf ==> OpenAs(p, Current(p)))
      && nodePair !in idOf.Keys
    }

    constructor (perUser: bool, nodeMbps: int)
      ensures Valid() && FollowsRun() && this.perUser == perUser && run == []
      ensures idOf == map[]
      ensures nodePair != null <==> nodeMbps > 0
      ensures nodePair != null ==>
                fresh(nodePair) && nodePair.rx == nodePair.tx == Tuned(UNSET, Int64.MbpsToBytes(nodeMbps))
    {
      this.perUser := perUser;
      users, bySecret, limiters, idOf, run := map[], map[], map[], map[], [];
      var pair: LimiterPair? := null;
      if nodeMbps > 0 {
        pair := new LimiterPair(Int64.MbpsToBytes(nodeMbps));
      }
      nodePair := pair;
    }

    ghost predicate Settled(u: User, id: nat)
      reads this`limiters, limiters.Values
    {
      if Limited(perUser, u) then id in limiters && limiters[id].rx.rate == Int64.MbpsToBytes(u.speedLimit)
      else id !in limiters
    }

    method CloseLimiter(id: nat)
      requires Valid()
      modifies this`limiters, idOf.Keys
      ensures Valid() && limiters == old(limiters) - {id}
      ensures forall i :: i in limiters ==> limiters[i].rx == old(limiters[i].rx)
    {
      if id in limiters {
        limiters[id].Close();
        limiters := limiters - {id};
      }
    }

    method UpdateLimiter(u: User)
      requires Valid() && u.id > 0
      modifies this`limiters, this`idOf, idOf.Keys
      ensures Valid() && old(idOf.Keys) <= idOf.Keys && fresh(idOf.Keys - old(idOf.Keys))
      ensures Settled(u, u.id)
      ensures KeepsPairs(old(limiters), limiters)
      ensures forall i :: i != u.id ==> (i in limiters <==> i in old(limiters))
      ensures forall i :: i in limiters && i in old(limiters) && i != u.id ==> limiters[i].rx == old(limiters[i].rx)
      ensures u.id in limiters && u.id !in old(limiters) ==> fresh(limiters[u.id])
    {
      if !perUser || u.speedLimit <= 0 {
        CloseLimiter(u.id);
        return;
      }
      var bytesPerSecond := Int64.MbpsToBytes(u.speedLimit);
      if u.id in limiters {
        limiters[u.id].SetRate(bytesPerSecond);
        return;
      }
      var p := new LimiterPair(bytesPerSecond);
      limiters, idOf := limiters[u.id := p], idOf[p := u.id];
    }

    predicate Gone(next: Users, id: nat)
      reads this
    {
      id in users && id !in next
    }

    // Closes the pairs of the users that are gone.
    method CloseGone(next: Users)
      requires Valid()
      modifies this`limiters, idOf.Keys
      ensures Valid()
      ensures forall id :: id in limiters <==> id in old(limiters) && !Gone(next, id)
      ensures KeepsPairs(old(limiters), limiters)
    {
      var todo := users.Keys;
      while todo != {}
        invariant todo <= users.Keys && Valid()
        invariant forall id :: id in limiters <==> id in old(limiters) && (Gone(next, id) ==> id in todo)
        invariant KeepsPairs(old(limiters), limiters)
      {
        var id :| id in todo;
        if id !in next {
          CloseLimiter(id);
        }
        todo := todo - {id};
      }
    }

    // Opens, updates or closes the pair of every user, in the order of the ids.
    method UpdateAll(next: Users, ids: seq<nat>)
      requires Valid() && ById(next) && forall id :: id in ids <==> id in next
      modifies this`limiters, this`idOf, idOf.Keys
      ensures Valid() && old(idOf.Keys) <= idOf.Keys && fresh(idOf.Keys - old(idOf.Keys))
      ensures forall id :: id in next ==> Settled(next[id], id)
      ensures forall id :: id !in next ==> (id in limiters <==> id in old(limiters))
      ensures KeepsPairs(old(limiters), limiters)
      ensures forall id :: id in limiters && id !in old(limiters) ==> fresh(limiters[id])
    {
      ghost var done := {};
      for i := 0 to |ids|
        invariant Valid() && old(idOf.Keys) <= idOf.Keys && fresh(idOf.Keys - old(idOf.Keys))
        invariant done <= next.Keys && forall j :: 0 <= j < i ==> ids[j] in done
        invariant forall id :: id in done ==> Settled(next[id], id)
        invariant forall id :: id !in done ==> (id in limiters <==> id in old(limiters))
        invariant KeepsPairs(old(limiters), limiters)
        invariant forall id :: id in limiters && id !in old(limiters) ==> fresh(limiters[id])
      {
        assert ids[i] in ids && next[ids[i]].id == ids[i];
        UpdateLimiter(next[ids[i]]);
        done := done + {ids[i]};
      }
    }

    // The limiters as the list `next` wants them, after `prev` was the list and
    // `before` the limiters. Pairs of ids that are on neither list stay as they are.
    ghost predicate Follows(next: Users, prev: Users, before: map<nat, LimiterPair>)
      reads this`limiters, this`idOf, idOf.Keys, limiters.Values
    {
      && Valid() && before.Values <= idOf.Keys
      && (forall id :: id in next ==> Settled(next[id], id))
      && DomainFollows(perUser, next, prev, before, limiters) && KeepsPairs(before, limiters)
    }

    method UpdateLimiters(next: Users, ids: seq<nat>)
      requires Valid() && ById(next) && forall id :: id in ids <==> id in next
      modifies this`limiters, this`idOf, idOf.Keys
      ensures Follows(next, users, old(limiters)) && old(idOf.Keys) <= idOf.Keys && fresh(idOf.Keys - old(idOf.Keys))
    {
      CloseGone(next);
      UpdateAll(next, ids);
    }

    // Applies a new list of users to the inbounds. The limiters follow the list even
    // when an inbound fails; users and secrets change only when all succeed.
    method ApplyBox(inbounds: seq<Inbound>, list: seq<User>, stops: Stops) returns (ok: bool, ghost done: nat)
      requires Valid() && FollowsRun()
      requires Distinct(inbounds)
      modifies this, idOf.Keys, inbounds`table
      ensures Follows(Next(list), old(users), old(limiters)) && old(idOf.Keys) <= idOf.Keys
              && fresh(idOf.Keys - old(idOf.Keys))
      ensures FollowsRun() && run == old(run) + [Attempt(list, ok)]
      ensures ok && old(InStep(perUser, users, limiters.Keys)) ==> InStep(perUser, users, limiters.Keys)
      ensures UpdatedTo(inbounds, old(Tables(inbounds)), Tables(inbounds), old(users), Next(list), done)
      ensures StopsAfter(inbounds, old(users), Next(list), stops, done) && (ok <==> done == |inbounds|)
    {
      ok, done := ApplyLocked(inbounds, list, stops);
      Record(list, ok, old(users), old(limiters));
      ghost var follows := Follows(Next(list), old(users), old(limiters));
      assert follows;
      StaysInStep(perUser, old(run), list, ok, old(users), old(limiters), users, limiters);
    }

    method ApplyLocked(inbounds: seq<Inbound>, list: seq<User>, stops: Stops) returns (ok: bool, ghost done: nat)
      requires Valid() && Distinct(inbounds)
      modifies this`users, this`bySecret, this`limiters, this`idOf, idOf.Keys, inbounds`table
      ensures Follows(Next(list), old(users), old(limiters)) && old(idOf.Keys) <= idOf.Keys
              && fresh(idOf.Keys - old(idOf.Keys))
      ensures users == if ok then Next(list) else old(users)
      ensures bySecret == if ok then Secrets(list) else old(bySecret)
      ensures UpdatedTo(inbounds, old(Tables(inbounds)), Tables(inbounds), old(users), Next(list), done)
      ensures StopsAfter(inbounds, old(users), Next(list), stops, done) && (ok <==> done == |inbounds|)
    {
      var next, nextSecrets := ReadList(list);
      ok, done := UpdateAllTables(inbounds, next, stops);
      ghost var tables := Tables(inbounds);
      Take(next, nextSecrets, ok);
      ghost var same, follows := Tables(inbounds) == tables, Follows(next, old(users), old(limiters));
      assert same && follows;
    }

    // Users and secrets become those of a list that succeeded.
    method Take(next: Users, nextSecrets: map<string, nat>, ok: bool)
      modifies this`users, this`bySecret
      ensures users == if ok then next else old(users)
      ensures bySecret == if ok then nextSecrets else old(bySecret)
    {
      if ok {
        users, bySecret := next, nextSecrets;
      }
    }

    // Adds the attempt to the run.
    ghost method Record(list: seq<User>, ok: bool, prev: Users, before: map<nat, LimiterPair>)
      requires prev == UsersAfter(run) && before.Keys == PairsAfter(perUser, run)
      requires users == (if ok then Next(list) else prev)
      requires bySecret == Secrets(if ok then list else LastList(run))
      requires DomainFollows(perUser, Next(list), prev, before, limiters)
      modifies this`run
      ensures FollowsRun() && run == old(run) + [Attempt(list, ok)]
    {
      PairsStep(perUser, run, list, ok, before, limiters);
      run := run + [Attempt(list, ok)];
    }

    // The limiters first, and then the inbounds.
    method UpdateAllTables(inbounds: seq<Inbound>, next: Users, stops: Stops) returns (ok: bool, ghost done: nat)
      requires Valid() && ById(next) && Distinct(inbounds)
      modifies this`limiters, this`idOf, idOf.Keys, inbounds`table
      ensures Follows(next, users, old(limiters)) && old(idOf.Keys) <= idOf.Keys && fresh(idOf.Keys - old(idOf.Keys))
      ensures UpdatedTo(inbounds, old(Tables(inbounds)), Tables(inbounds), users, next, done)
      ensures StopsAfter(inbounds, users, next, stops, done) && (ok <==> done == |inbounds|)
    {
      var ids := SortIds(next.Keys);
      UpdateLimiters(next, ids);
      ok, done := UpdateInbounds(inbounds, users, next, ids, stops);
      // What the limiters follow is not touched by the inbounds.
      ghost var follows := Follows(next, users, old(limiters));
      assert follows;
    }

    // A list with distinct secrets that succeeds keeps every table in agreement.
    method ApplyAgreed(inbounds: seq<Inbound>, list: seq<User>, stops: Stops) returns (ok: bool)
      requires Valid() && FollowsRun()
      requires Distinct(inbounds)
      requires forall i :: 0 <= i < |inbounds| ==> Agrees(inbounds[i].kind, users, inbounds[i].table)
      requires DistinctUuids(users) && DistinctPasswords(Next(list))
      modifies this, idOf.Keys, inbounds`table
      ensures ok <==> Passes(inbounds, old(users), Next(list), stops)
      ensures ok ==> users == Next(list)
      ensures forall i :: 0 <= i < |inbounds| && ok ==> Agrees(inbounds[i].kind, users, inbounds[i].table)
      ensures forall i :: 0 <= i < |inbounds| && ok ==> TableOf(inbounds[i].kind, users, inbounds[i].table)
    {
      ghost var before, done := Tables(inbounds), 0;
      ok, done := ApplyBox(inbounds, list, stops);
      PassesIff(inbounds, old(users), Next(list), stops, done);
      UpdatedToIsUpdated(inbounds, before, Tables(inbounds), old(users), Next(list), done);
      forall i | 0 <= i < |inbounds| && ok
        ensures Agrees(inbounds[i].kind, users, inbounds[i].table)
        ensures TableOf(inbounds[i].kind, users, inbounds[i].table)
      {
        assert UpdatedAt(inbounds[i], before[i], Tables(inbounds)[i], old(users), users, ok);
        AgreementIsKept(inbounds[i].kind, old(users), users, old(inbounds[i].table), inbounds[i].table);
        AgreesIsTable(inbounds[i].kind, users, inbounds[i].table);
      }
    }

    // One more attempt at a list, in terms of the state before the first attempt.
    method ApplyAgain(inbounds: seq<Inbound>, list: seq<User>, stops: Stops, ghost before: map<nat, LimiterPair>,
                      ghost tables: seq<Table>) returns (ok: bool)
      requires Valid() && FollowsRun() && Distinct(inbounds)
      requires limiters == before || Follows(Next(list), users, before)
      requires Updated(inbounds, tables, Tables(inbounds), users, Next(list), false)
      modifies this, idOf.Keys, inbounds`table
      ensures Follows(Next(list), old(users), before) && old(idOf.Keys) <= idOf.Keys
              && fresh(idOf.Keys - old(idOf.Keys))
      ensures FollowsRun() && LastList(run) == if ok then list else LastList(old(run))
      ensures Updated(inbounds, tables, Tables(inbounds), old(users), Next(list), ok)
      ensures ok <==> Passes(inbounds, old(users), Next(list), stops)
    {
      ghost var done;
      ok, done := ApplyBox(inbounds, list, stops);
      PassesIff(inbounds, old(users), Next(list), stops, done);
      UpdatedToIsUpdated(inbounds, old(Tables(inbounds)), Tables(inbounds), old(users), Next(list), done);
      KeepsTwice(perUser, Next(list), old(users), before, old(limiters), limiters);
      UpdatedTwice(inbounds, tables, old(Tables(inbounds)), Tables(inbounds), old(users), Next(list), ok);
      assert run[..|run| - 1] == old(run);
    }

    // Applying the same list again and again until every inbound takes it. However
    // many attempts fail, and wherever, the outcome is that of a success at once.
    method ApplyUntil(inbounds: seq<Inbound>, list: seq<User>, attempts: seq<Stops>)
      returns (ok: bool, ghost failed: nat)
      requires Valid() && FollowsRun() && Distinct(inbounds) && attempts != []
      modifies this, idOf.Keys, inbounds`table
      ensures FollowsRun() && Follows(Next(list), old(users), old(limiters))
      ensures LastList(run) == if ok then list else LastList(old(run))
      ensures Updated(inbounds, old(Tables(inbounds)), Tables(inbounds), old(users), Next(list), ok)
      ensures NonePasses(inbounds, old(users), Next(list), attempts, failed) && (ok <==> failed < |attempts|)
      ensures ok ==> Passes(inbounds, old(users), Next(list), attempts[failed])
    {
      failed := 0;
      for k := 0 to |attempts|
        invariant Valid() && old(idOf.Keys) <= idOf.Keys && fresh(idOf.Keys - old(idOf.Keys))
        invariant FollowsRun() && LastList(run) == LastList(old(run))
        invariant if k == 0 then limiters == old(limiters) else Follows(Next(list), old(users), old(limiters))
        invariant Updated(inbounds, old(Tables(inbounds)), Tables(inbounds), old(users), Next(list), false)
        invariant failed == k && NonePasses(inbounds, old(users), Next(list), attempts, k)
      {
        ok := ApplyAgain(inbounds, list, attempts[k], old(limiters), old(Tables(inbounds)));
        if ok {
          return;
        }
        NonePassesStep(inbounds, old(users), Next(list), attempts, k);
        failed := k + 1;
      }
      ok := false;
    }

    // The printed id of the last user on the list that owns the name; a name that
    // nobody owns stands for itself.
    method Resolve(user: string) returns (r: string)
      requires FollowsRun()
      ensures forall i :: LastOwner(LastList(run), user, i) ==> r == Sprint(LastList(run)[i].id)
      ensures (forall i :: !OwnerAt(LastList(run), user, i)) ==> r == user
    {
      SecretsAt(LastList(run), user);
      if user == "" {
        return "";
      }
      if user in bySecret {
        return Sprint(bySecret[user]);
      }
      r := user;
    }

    // The printed ids of the users: exactly those of present users.
    method ActiveIDs() returns (out: set<string>)
      ensures forall s :: s in out <==> exists id :: id in users && s == Sprint(id)
      ensures forall id: nat :: Sprint(id) in out <==> id in users
    {
      out := {};
      var todo := users.Keys;
      while todo != {}
        invariant todo <= users.Keys
        invariant forall s :: s in out <==> exists id :: id in users && id !in todo && s == Sprint(id)
      {
        var id :| id in todo;
        out := out + {Sprint(id)};
        todo := todo - {id};
      }
      forall id: nat
        ensures Sprint(id) in out <==> id in users
      {
        if other :| other in users && Sprint(id) == Sprint(other) {
          DecimalInjective(id, other);
        }
      }
    }

    // The pairs a connection of a user shares: with all connections, and with those of
    // the same user.
    method LimitersOf(user: string) returns (node: LimiterPair?, p: LimiterPair?)
      requires Valid()
      ensures node == nodePair && (p != null ==> p != node)
      ensures p != null <==> perUser && user in bySecret && bySecret[user] in limiters
      ensures p != null ==> p == limiters[bySecret[user]] && !p.rx.closed && !p.tx.closed
      ensures InStep(perUser, users, limiters.Keys) ==>
                (p != null <==>
                 perUser && user in bySecret && bySecret[user] in users && users[bySecret[user]].speedLimit > 0)
    {
      node, p := nodePair, null;
      if perUser && user in bySecret && bySecret[user] in limiters {
        p := limiters[bySecret[user]];
        assert p in idOf && OpenAs(p, Current(p));
      }
    }
  }

  const LIST_OF_FIVE := [User(5, "u", "p", "n", 10)]

  lemma NextOfFive()
    ensures Next(LIST_OF_FIVE) == map[5 := LIST_OF_FIVE[0]]
  {
    assert LIST_OF_FIVE[..0] == [];
  }

  // Adding to a VLESS inbound fails.
  lemma FiveIsBlocked(inbound: Inbound)
    requires inbound.kind == Vless
    ensures Blocked(inbound.kind, map[], Next(LIST_OF_FIVE), None, Some(0))
  {
    NextOfFive();
    assert AddedAs(Vless, map[], Next(LIST_OF_FIVE), 5, "u");
    assert Added(Vless, map[], Next(LIST_OF_FIVE), "u");
  }

  lemma FiveIsLeft()
    ensures var run := [Attempt(LIST_OF_FIVE, false), Attempt([], true)];
            5 in PairsAfter(true, run) && UsersAfter(run) == map[]
  {
    var run := [Attempt(LIST_OF_FIVE, false), Attempt([], true)];
    NextOfFive();
    assert run[..1] == [Attempt(LIST_OF_FIVE, false)] && run[..1][..0] == [];
    assert 5 in PairsAfter(true, run[..1]) && UsersAfter(run[..1]) == map[];
  }

  const ADD_FAILS: Stops := i => (None, Some(0))
  const NO_FAILURE: Stops := i => (None, None)

  lemma FiveStops(inbound: Inbound, done: nat)
    requires inbound.kind == Vless && StopsAfter([inbound], map[], Next(LIST_OF_FIVE), ADD_FAILS, done)
    ensures done == 0
  {
    FiveIsBlocked(inbound);
    assert [inbound][0] == inbound && ADD_FAILS(0) == (None, Some(0));
  }

  lemma NothingStops(inbound: Inbound, done: nat)
    requires StopsAfter([inbound], map[], Next([]), NO_FAILURE, done)
    ensures done == 1
  {
    assert [inbound][0] == inbound && NO_FAILURE(0) == (None, None);
  }

  method FiveFails() returns (m: UserManager, inbound: Inbound)
    ensures m.Valid() && m.FollowsRun() && m.perUser && m.run == [Attempt(LIST_OF_FIVE, false)]
    ensures fresh(m) && fresh(m.idOf.Keys) && fresh(inbound)
  {
    m := new UserManager(true, 0);
    inbound := new Inbound(Vless, map[]);
    var ok, done := m.ApplyBox([inbound], LIST_OF_FIVE, ADD_FAILS);
    FiveStops(inbound, done);
  }

  // A pair can outlive its user: a list with user 5 fails at an inbound, so that the
  // users stay as they are but the pair exists, and the next list has no user 5.
  method LimiterOutlivesUser() returns (m: UserManager)
    ensures m.run == [Attempt(LIST_OF_FIVE, false), Attempt([], true)]
    ensures m.Valid() && m.users == map[] && 5 in m.limiters && !m.limiters[5].rx.closed
  {
    var inbound;
    m, inbound := FiveFails();
    var ok, done := m.ApplyBox([inbound], [], NO_FAILURE);
    NothingStops(inbound, done);
    assert m.run == [Attempt(LIST_OF_FIVE, false)] + [Attempt([], true)];
    FiveIsLeft();
    assert m.OpenAs(m.limiters[5], m.Current(m.limiters[5]));
  }

  const SECOND_FAILS: Stops := i => if i == 1 then (None, Some(0)) else (None, None)

  lemma FiveStopsAtSecond(first: Inbound, second: Inbound, done: nat)
    requires second.kind == Vless && StopsAfter([first, second], map[], Next(LIST_OF_FIVE), SECOND_FAILS, done)
    ensures done == 1
  {
    FiveIsBlocked(second);
    assert [first, second][0] == first && [first, second][1] == second;
    assert SECOND_FAILS(0) == (None, None) && SECOND_FAILS(1) == (None, Some(0));
  }

  lemma NothingStopsTwo(first: Inbound, second: Inbound, done: nat)
    requires StopsAfter([first, second], map[], Next([]), NO_FAILURE, done)
    ensures done == 2
  {
    assert [first, second][0] == first && [first, second][1] == second;
    assert NO_FAILURE(0) == (None, None) && NO_FAILURE(1) == (None, None);
  }

  lemma FiveIsAdded(t: Table, t': Table)
    requires Patched(Vless, map[], Next(LIST_OF_FIVE), t, t')
    ensures "u" in t'
  {
    NextOfFive();
    assert AddedAs(Vless, map[], Next(LIST_OF_FIVE), 5, "u");
    assert Added(Vless, map[], Next(LIST_OF_FIVE), "u");
    assert PatchedAt(Vless, map[], Next(LIST_OF_FIVE), t, t', "u");
  }

  // The list with user 5 fails at the second inbound, after the first one took it.
  method FiveFailsAtSecond(m: UserManager, first: Inbound, second: Inbound)
    requires m.Valid() && m.FollowsRun() && m.users == map[]
    requires first != second && first.kind == second.kind == Vless
    modifies m, m.idOf.Keys, first`table, second`table
    ensures m.Valid() && m.FollowsRun() && m.users == map[] && "u" in first.table
    ensures fresh(m.idOf.Keys - old(m.idOf.Keys))
  {
    ghost var before := Tables([first, second]);
    var ok, done := m.ApplyBox([first, second], LIST_OF_FIVE, SECOND_FAILS);
    FiveStopsAtSecond(first, second, done);
    assert m.run[..|m.run| - 1] == old(m.run);
    assert UpdatedAt([first, second][0], before[0], Tables([first, second])[0], map[], Next(LIST_OF_FIVE), true);
    FiveIsAdded(before[0], first.table);
  }

  // The next list has no user 5.
  method NobodyIsLeft(m: UserManager, first: Inbound, second: Inbound)
    requires m.Valid() && m.FollowsRun() && m.users == map[] && "u" in first.table
    requires first != second && first.kind == second.kind == Vless
    modifies m, m.idOf.Keys, first`table, second`table
    ensures m.users == map[] && "u" in first.table && !Agrees(Vless, m.users, first.table)
  {
    ghost var before := Tables([first, second]);
    var ok, done := m.ApplyBox([first, second], [], NO_FAILURE);
    NothingStopsTwo(first, second, done);
    assert m.run[..|m.run| - 1] == old(m.run);
    assert UpdatedAt([first, second][0], before[0], Tables([first, second])[0], map[], Next([]), true);
    LeftoverRowStays("u", before[0], first.table);
  }

  // So a row can outlive its user.
  method RowOutlivesUser() returns (m: UserManager, first: Inbound)
    ensures m.users == map[] && "u" in first.table && !Agrees(Vless, m.users, first.table)
  {
    m := new UserManager(true, 0);
    first := new Inbound(Vless, map[]);
    var second := new Inbound(Vless, map[]);
    FiveFailsAtSecond(m, first, second);
    NobodyIsLeft(m, first, second);
  }

  method ReadList(list: seq<User>) returns (next: Users, secrets: map<string, nat>)
    ensures next == Next(list) && secrets == Secrets(list)
  {
    next, secrets := map[], map[];
    for i := 0 to |list|
      invariant next == Next(list[..i]) && secrets == Secrets(list[..i])
    {
      assert list[..i + 1][..i] == list[..i];
      var u := list[i];
      if u.id > 0 {
        next := next[u.id := u];
        secrets := WithSecrets(secrets, u);
      }
    }
    assert list[..|list|] == list;
  }
}
