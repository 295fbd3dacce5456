/**
 Runs of user lists, of which some fail at an inbound: who is a user and who has a
 limiter pair afterwards (cmd/star1ight-agent/user_manager.go).
 */
module ListRuns {
  import opened Text
  import opened InboundTables

  // Whether a user should have a pair.
  predicate Limited(perUser: bool, u: User) { perUser && u.speedLimit > 0 }

  // A list and whether every inbound took it.
  datatype Attempt = Attempt(list: seq<User>, ok: bool)

  // The last list that succeeded.
  function LastList(run: seq<Attempt>): seq<User> {
    if run == [] then []
    else if run[|run| - 1].ok then run[|run| - 1].list
    else LastList(run[..|run| - 1])
  }

  function UsersAfter(run: seq<Attempt>): Users { Next(LastList(run)) }

  // The ids with a pair: every attempt settles the ids of its list and closes the
  // pairs of the users that its list lacks, whether it succeeds or not.
  function PairsAfter(perUser: bool, run: seq<Attempt>): set<nat> {
    if run == [] then {}
    else
      var before := run[..|run| - 1];
      var next := Next(run[|run| - 1].list);
      (set id | id in next && Limited(perUser, next[id]))
      + (PairsAfter(perUser, before) - next.Keys - UsersAfter(before).Keys)
  }

  predicate OpensAt(perUser: bool, run: seq<Attempt>, k: int, id: nat) {
    0 <= k < |run| && id in Next(run[k].list) && Limited(perUser, Next(run[k].list)[id])
  }

  // A list closes a pair when it names the id without a speed, or lacks the id while
  // the last list that succeeded before had it.
  predicate ClosesAt(perUser: bool, run: seq<Attempt>, k: int, id: nat) {
    0 <= k < |run| &&
    if id in Next(run[k].list) then !Limited(perUser, Next(run[k].list)[id]) else id in UsersAfter(run[..k])
  }

  // The k-th list opens the pair and no later one closes it.
  ghost predicate OpenSince(perUser: bool, run: seq<Attempt>, k: int, id: nat) {
    OpensAt(perUser, run, k, id) && forall j :: k < j < |run| ==> !ClosesAt(perUser, run, j, id)
  }

  lemma PrefixSteps(perUser: bool, run: seq<Attempt>, k: int, id: nat)
    requires 0 <= k < |run| - 1
    ensures OpensAt(perUser, run, k, id) <==> OpensAt(perUser, run[..|run| - 1], k, id)
    ensures ClosesAt(perUser, run, k, id) <==> ClosesAt(perUser, run[..|run| - 1], k, id)
  {
    assert run[..|run| - 1][..k] == run[..k];
  }

  lemma OpenSinceStep(perUser: bool, run: seq<Attempt>, k: int, id: nat)
    requires 0 <= k < |run| - 1
    ensures OpenSince(perUser, run, k, id)
            <==> OpenSince(perUser, run[..|run| - 1], k, id) && !ClosesAt(perUser, run, |run| - 1, id)
  {
    var n := |run| - 1;
    PrefixSteps(perUser, run, k, id);
    forall j | k < j < n
      ensures ClosesAt(perUser, run, j, id) <==> ClosesAt(perUser, run[..n], j, id)
    {
      PrefixSteps(perUser, run, j, id);
    }
    if OpenSince(perUser, run[..n], k, id) && !ClosesAt(perUser, run, n, id) {
      forall j | k < j < |run|
        ensures !ClosesAt(perUser, run, j, id)
      {
        assert j < n ==> !ClosesAt(perUser, run[..n], j, id);
      }
    }
  }

  // After any run of lists an id has a pair exactly when some list opened it and no
  // later one closed it.
  lemma {:induction false} PairsIff(perUser: bool, run: seq<Attempt>, id: nat)
    ensures id in PairsAfter(perUser, run) <==> exists k :: OpenSince(perUser, run, k, id)
  {
    if run != [] {
      var n := |run| - 1;
      PairsIff(perUser, run[..n], id);
      if OpensAt(perUser, run, n, id) {
        assert OpenSince(perUser, run, n, id);
      }
      forall k | 0 <= k < n
        ensures OpenSince(perUser, run, k, id)
                <==> OpenSince(perUser, run[..n], k, id) && !ClosesAt(perUser, run, n, id)
      {
        OpenSinceStep(perUser, run, k, id);
      }
    }
  }

  // A user that a successful list brought, and no later list closed, is still there.
  lemma {:induction false} StillListed(perUser: bool, run: seq<Attempt>, k: int, id: nat)
    requires OpenSince(perUser, run, k, id) && run[k].ok
    ensures id in UsersAfter(run) && id in Next(run[|run| - 1].list)
  {
    var n := |run| - 1;
    if k < n {
      OpenSinceStep(perUser, run, k, id);
      StillListed(perUser, run[..n], k, id);
    }
  }

  // After a success an id that is not on the list has a pair exactly when a list that
  // failed opened it and no later list closed it.
  lemma LeftByFailure(perUser: bool, run: seq<Attempt>, id: nat)
    requires run != [] && id !in Next(run[|run| - 1].list)
    ensures id in PairsAfter(perUser, run) <==> exists k :: OpenSince(perUser, run, k, id) && !run[k].ok
  {
    PairsIff(perUser, run, id);
    if k :| OpenSince(perUser, run, k, id) && run[k].ok {
      StillListed(perUser, run, k, id);
    }
  }

  // Pairs are exactly those of the limited users.
  ghost predicate InStep(perUser: bool, users: Users, pairs: set<nat>) {
    forall id :: id in pairs <==> id in users && Limited(perUser, users[id])
  }

  // After a success the limited users are exactly those with a pair, unless a list that
  // failed opened a pair for an absent id and no later list closed it.
  lemma InStepIff(perUser: bool, run: seq<Attempt>)
    requires run != [] && run[|run| - 1].ok
    ensures InStep(perUser, UsersAfter(run), PairsAfter(perUser, run))
            <==> !exists k, id :: OpenSince(perUser, run, k, id) && !run[k].ok && id !in UsersAfter(run)
  {
    forall id: nat | id !in UsersAfter(run)
      ensures id in PairsAfter(perUser, run) <==> exists k :: OpenSince(perUser, run, k, id) && !run[k].ok
    {
      LeftByFailure(perUser, run, id);
    }
  }

  // Without failures the pairs are always in step.
  lemma {:induction false} InStepWithoutFailures(perUser: bool, run: seq<Attempt>)
    requires forall k :: 0 <= k < |run| ==> run[k].ok
    ensures InStep(perUser, UsersAfter(run), PairsAfter(perUser, run))
  {
    if run != [] {
      InStepIff(perUser, run);
    }
  }
}
