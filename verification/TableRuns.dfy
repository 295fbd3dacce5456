/**
 The table of one inbound through a run of lists that failed at other inbounds, and a
 list that succeeds (cmd/star1ight-agent/user_manager.go). Whether an inbound takes a
 list that fails depends on whether its turn comes before the failure.
 */
module TableRuns {
  import opened Text
  import opened InboundTables

  // The users of a list that failed, and whether this inbound had taken it by then.
  datatype Try = Try(next: Users, took: bool)

  // `left` is what the tries make of `t`. The users stay `prev` all the time.
  ghost predicate MadeBy(kind: Kind, prev: Users, tries: seq<Try>, t: Table, left: Table) {
    if tries == [] then left == t
    else
      var last := tries[|tries| - 1];
      exists mid ::
        && MadeBy(kind, prev, tries[..|tries| - 1], t, mid)
        && if last.took then Patched(kind, prev, last.next, mid, left) else left == mid
  }

  ghost predicate Touches(kind: Kind, prev: Users, next: Users, key: string) {
    Added(kind, prev, next, key) || Deleted(kind, prev, next, key)
  }

  // The k-th try is the last one taken that deletes or adds the key.
  ghost predicate LastTouch(kind: Kind, prev: Users, tries: seq<Try>, k: int, key: string) {
    && 0 <= k < |tries| && tries[k].took && Touches(kind, prev, tries[k].next, key)
    && forall j :: k < j < |tries| && tries[j].took ==> !Touches(kind, prev, tries[j].next, key)
  }

  // The list adds the key with the very row that an old user has under it.
  ghost predicate Restores(kind: Kind, prev: Users, next: Users, key: string) {
    exists id, p :: Wins(kind, prev, next, id, key) && p in prev && RowFor(kind, prev[p]) == RowFor(kind, next[id])
  }

  lemma TouchedKeyIsSameIff(kind: Kind, prev: Users, next: Users, t: Table, mid: Table, left: Table, key: string)
    requires Agrees(kind, prev, t) && PatchedAt(kind, prev, next, mid, left, key) && Touches(kind, prev, next, key)
    ensures SameAt(t, left, key) <==> Restores(kind, prev, next, key)
  {
    if Added(kind, prev, next, key) {
      var w :| Wins(kind, prev, next, w, key) && RowFor(kind, next[w]) == Some(left[key]);
      if SameAt(t, left, key) {
        var p :| p in prev && HasKey(kind, prev[p], key);
        assert Holds(t, RowFor(kind, prev[p]).value);
        assert Wins(kind, prev, next, w, key) && RowFor(kind, prev[p]) == RowFor(kind, next[w]);
      }
      if id, p :| Wins(kind, prev, next, id, key) && p in prev && RowFor(kind, prev[p]) == RowFor(kind, next[id]) {
        assert id == w;
        assert Holds(t, RowFor(kind, prev[p]).value);
      }
    } else {
      var id :| Leaves(prev, next, id) && HasKey(kind, prev[id], key);
      assert Holds(t, RowFor(kind, prev[id]).value);
    }
  }

  lemma LastTouchStep(kind: Kind, prev: Users, tries: seq<Try>, k: int, key: string)
    requires 0 <= k < |tries| - 1
    ensures LastTouch(kind, prev, tries, k, key)
            <==>
            LastTouch(kind, prev, tries[..|tries| - 1], k, key) &&
            !(tries[|tries| - 1].took && Touches(kind, prev, tries[|tries| - 1].next, key))
  {
    var n := |tries| - 1;
    if LastTouch(kind, prev, tries[..n], k, key) && !(tries[n].took && Touches(kind, prev, tries[n].next, key)) {
      forall j | k < j < |tries| && tries[j].took
        ensures !Touches(kind, prev, tries[j].next, key)
      {
        assert j < n ==> tries[..n][j] == tries[j];
      }
    }
    if LastTouch(kind, prev, tries, k, key) {
      assert tries[..n][k] == tries[k];
    }
  }

  // The row under a key is the old one exactly when the last try that touched it, if
  // there was any, restored it.
  lemma {:induction false} LeftAt(kind: Kind, prev: Users, tries: seq<Try>, t: Table, left: Table, key: string)
    requires Agrees(kind, prev, t) && MadeBy(kind, prev, tries, t, left)
    ensures SameAt(t, left, key)
            <==> forall k :: LastTouch(kind, prev, tries, k, key) ==> Restores(kind, prev, tries[k].next, key)
  {
    if tries != [] {
      var n := |tries| - 1;
      var mid :| MadeBy(kind, prev, tries[..n], t, mid)
                 && if tries[n].took then Patched(kind, prev, tries[n].next, mid, left) else left == mid;
      LeftAt(kind, prev, tries[..n], t, mid, key);
      forall k | 0 <= k < n
        ensures LastTouch(kind, prev, tries, k, key)
                <==>
                LastTouch(kind, prev, tries[..n], k, key) &&
                !(tries[n].took && Touches(kind, prev, tries[n].next, key))
      {
        LastTouchStep(kind, prev, tries, k, key);
      }
      if tries[n].took {
        assert PatchedAt(kind, prev, tries[n].next, mid, left, key);
        if Touches(kind, prev, tries[n].next, key) {
          TouchedKeyIsSameIff(kind, prev, tries[n].next, t, mid, left, key);
          assert LastTouch(kind, prev, tries, n, key);
        }
      }
    }
  }

  // After any run of failed lists and a success the table agrees with the new users
  // exactly when every key that the list does not touch was restored by the last try
  // that touched it, every unchanged user is spared and no two users claim one key.
  lemma AgreementOverRun(kind: Kind, prev: Users, tries: seq<Try>, next: Users, t: Table, left: Table, t': Table)
    requires ById(prev) && ById(next) && Agrees(kind, prev, t)
    requires MadeBy(kind, prev, tries, t, left) && Patched(kind, prev, next, left, t')
    ensures Agrees(kind, next, t')
            <==>
            (forall k, key :: LastTouch(kind, prev, tries, k, key) && !Touches(kind, prev, next, key) ==>
               Restores(kind, prev, tries[k].next, key)) &&
            Spared(kind, prev, next) && Coherent(kind, next)
  {
    AgreementAfterFailures(kind, prev, next, t, left, t');
    forall key
      ensures SameAt(t, left, key)
              <==> forall k :: LastTouch(kind, prev, tries, k, key) ==> Restores(kind, prev, tries[k].next, key)
    {
      LeftAt(kind, prev, tries, t, left, key);
    }
  }
}
