/**
 The user list the syncer fetches from several panels: the first panel that lists
 an id decides about it (panelapi/multi.go, panelapi/source_map.go).
 */
module UserList {
  import opened Sequences
  import opened Text
  import opened InboundTables

  // What fetching from a panel gives; None stands for a nil panel.
  type Fetch = Option<Result<seq<User>>>

  // The users of the panels, in order, up to the first failure.
  function AllUsers(fetches: seq<Fetch>): seq<User> {
    if fetches == [] then []
    else
      var last := fetches[|fetches| - 1];
      AllUsers(fetches[..|fetches| - 1]) + if last.Some? && last.value.Ok? then last.value.value else []
  }

  predicate Listed(list: seq<User>, id: int) { exists i :: 0 <= i < |list| && list[i].id == id }

  // Later users with a positive id that was listed before are left out.
  function FirstWins(list: seq<User>): seq<User> {
    if list == [] then []
    else
      var n := |list| - 1;
      FirstWins(list[..n]) + if list[n].id > 0 && Listed(list[..n], list[n].id) then [] else [list[n]]
  }

  ghost predicate Failed(f: Fetch) { f.Some? && f.value.Err? }

  method FetchUsers(fetches: seq<Fetch>) returns (r: Result<seq<User>>)
    ensures r.Err? <==> exists i :: 0 <= i < |fetches| && Failed(fetches[i])
    ensures r.Ok? ==> r.value == FirstWins(AllUsers(fetches))
  {
    var merged: seq<User>, seen: set<int> := [], {};
    for i := 0 to |fetches|
      invariant merged == FirstWins(AllUsers(fetches[..i]))
      invariant forall id :: id in seen <==> id > 0 && Listed(AllUsers(fetches[..i]), id)
      invariant forall j :: 0 <= j < i ==> !Failed(fetches[j])
    {
      assert fetches[..i + 1][..i] == fetches[..i];
      assert AllUsers(fetches[..i]) + [] == AllUsers(fetches[..i]);
      if fetches[i].Some? {
        if fetches[i].value.Err? {
          return Err("fetch failed");
        }
        merged, seen := AddPanel(AllUsers(fetches[..i]), fetches[i].value.value, merged, seen);
      }
    }
    assert fetches[..|fetches|] == fetches;
    r := Ok(merged);
  }

  method AddPanel(ghost before: seq<User>, list: seq<User>, merged: seq<User>, seen: set<int>)
    returns (merged': seq<User>, seen': set<int>)
    requires merged == FirstWins(before)
    requires forall id :: id in seen <==> id > 0 && Listed(before, id)
    ensures merged' == FirstWins(before + list)
    ensures forall id :: id in seen' <==> id > 0 && Listed(before + list, id)
  {
    merged', seen' := merged, seen;
    assert before + list[..0] == before;
    for i := 0 to |list|
      invariant merged' == FirstWins(before + list[..i])
      invariant forall id :: id in seen' <==> id > 0 && Listed(before + list[..i], id)
    {
      OneMore(before, list, i);
      AddStep(before + list[..i], list[i]);
      var u := list[i];
      if !(u.id > 0 && u.id in seen') {
        merged' := merged' + [u];
        if u.id > 0 {
          seen' := seen' + {u.id};
        }
      }
    }
    assert list[..|list|] == list;
  }

  lemma AddStep(list: seq<User>, u: User)
    ensures FirstWins(list + [u]) == FirstWins(list) + if u.id > 0 && Listed(list, u.id) then [] else [u]
    ensures forall id :: Listed(list + [u], id) <==> Listed(list, id) || u.id == id
  {
    assert (list + [u])[..|list|] == list;
    forall id
      ensures Listed(list + [u], id) <==> Listed(list, id) || u.id == id
    {
      if u.id == id {
        assert (list + [u])[|list|].id == id;
      }
      if i :| 0 <= i < |list| && list[i].id == id {
        assert (list + [u])[i].id == id;
      }
    }
  }

  predicate FirstWithId(list: seq<User>, id: int, i: int) {
    0 <= i < |list| && list[i].id == id && forall j :: 0 <= j < i ==> list[j].id != id
  }

  lemma {:induction false} SameIds(list: seq<User>, id: int)
    ensures Listed(FirstWins(list), id) <==> Listed(list, id)
  {
    if list != [] {
      var n := |list| - 1;
      SameIds(list[..n], id);
      assert list == list[..n] + [list[n]];
      AddStep(list[..n], list[n]);
      AddStep(FirstWins(list[..n]), list[n]);
      assert FirstWins(list[..n]) + [] == FirstWins(list[..n]);
    }
  }

  ghost predicate KeptOnce(list: seq<User>, out: seq<User>, id: int) {
    && (forall k :: 0 <= k < |out| && out[k].id == id ==> exists i :: FirstWithId(list, id, i) && out[k] == list[i])
    && (forall k, l :: 0 <= k < |out| && 0 <= l < |out| && out[k].id == out[l].id == id ==> k == l)
  }

  // The user that a merged list has for a positive id is the first one that any
  // panel lists, and it is there exactly once.
  lemma {:induction false} FirstOneIsKept(list: seq<User>, id: int)
    requires id > 0
    ensures Listed(FirstWins(list), id) <==> Listed(list, id)
    ensures KeptOnce(list, FirstWins(list), id)
  {
    SameIds(list, id);
    if list != [] {
      var n := |list| - 1;
      FirstOneIsKept(list[..n], id);
      KeepsFirst(list, FirstWins(list[..n]), id);
      if list[n].id == id && !Listed(list[..n], id) {
        NewFirst(list, FirstWins(list[..n]), id);
      }
    }
  }

  lemma KeepsFirst(list: seq<User>, out: seq<User>, id: int)
    requires list != [] && KeptOnce(list[..|list| - 1], out, id)
    ensures KeptOnce(list, out, id)
    ensures list[|list| - 1].id != id ==> KeptOnce(list, out + [list[|list| - 1]], id)
  {
    forall i | FirstWithId(list[..|list| - 1], id, i)
      ensures FirstWithId(list, id, i) && list[..|list| - 1][i] == list[i]
    {}
  }

  lemma NewFirst(list: seq<User>, out: seq<User>, id: int)
    requires list != [] && list[|list| - 1].id == id && !Listed(list[..|list| - 1], id) && !Listed(out, id)
    ensures KeptOnce(list, out + [list[|list| - 1]], id)
  {
    assert FirstWithId(list, id, |list| - 1);
  }

  // A user that counts: the first one with its id, or one without a positive id.
  ghost function CountsAt(list: seq<User>): nat -> bool {
    (i: nat) => i < |list| && (list[i].id <= 0 || forall j :: 0 <= j < i ==> list[j].id != list[i].id)
  }

  const NOBODY := User(0, "", "", "", 0)

  ghost function UserAt(list: seq<User>): nat -> User { (i: nat) => if i < |list| then list[i] else NOBODY }

  // The merged list has exactly these users, in the order in which they are listed.
  lemma {:induction false} MergedInOrder(list: seq<User>, n: nat) returns (at: seq<nat>)
    requires n <= |list|
    ensures Chosen(n, CountsAt(list), at) && TakenAt(FirstWins(list[..n]), at, UserAt(list))
  {
    if n == 0 {
      at := [];
    } else {
      var before := MergedInOrder(list, n - 1);
      MergedStep(list, n - 1);
      at := PickNext(CountsAt(list), UserAt(list), n - 1, FirstWins(list[..n - 1]),
                     if CountsAt(list)(n - 1) then [list[n - 1]] else [], before);
    }
  }

  lemma MergedStep(list: seq<User>, i: nat)
    requires i < |list|
    ensures FirstWins(list[..i + 1]) == FirstWins(list[..i]) + if CountsAt(list)(i) then [list[i]] else []
  {
    assert list[..i + 1][..i] == list[..i];
    if Listed(list[..i], list[i].id) {
      var j :| 0 <= j < i && list[..i][j].id == list[i].id;
      assert list[j].id == list[i].id;
    } else {
      forall j | 0 <= j < i
        ensures list[j].id != list[i].id
      {
        assert list[..i][j] == list[j];
      }
    }
  }

  // The users that a panel gives.
  function UsersOf(f: Fetch): seq<User> { if f.Some? && f.value.Ok? then f.value.value else [] }

  // The panels are listed in their order: the users of each come after those of all
  // panels before it.
  lemma {:induction false} PanelsInOrder(fetches: seq<Fetch>, i: nat)
    requires i < |fetches|
    ensures AllUsers(fetches[..i]) + UsersOf(fetches[i]) <= AllUsers(fetches)
    decreases |fetches|
  {
    var n := |fetches| - 1;
    if i < n {
      PanelsInOrder(fetches[..n], i);
      assert fetches[..n][..i] == fetches[..i];
      PrefixGrows(AllUsers(fetches[..i]) + UsersOf(fetches[i]), AllUsers(fetches[..n]), UsersOf(fetches[n]));
    }
  }

  lemma PrefixGrows<T>(a: seq<T>, b: seq<T>, more: seq<T>)
    requires a <= b
    ensures a <= b + more
  {}

  // No panel before this one lists the id, and this is the first user of it who has it.
  ghost predicate FirstPanelWith(fetches: seq<Fetch>, id: int, i: nat, j: nat) {
    && i < |fetches| && j < |UsersOf(fetches[i])| && UsersOf(fetches[i])[j].id == id
    && (forall p, q :: 0 <= p < i && 0 <= q < |UsersOf(fetches[p])| ==> UsersOf(fetches[p])[q].id != id)
    && forall q :: 0 <= q < j ==> UsersOf(fetches[i])[q].id != id
  }

  lemma {:induction false} NotListedBefore(fetches: seq<Fetch>, id: int)
    requires forall p, q :: 0 <= p < |fetches| && 0 <= q < |UsersOf(fetches[p])| ==> UsersOf(fetches[p])[q].id != id
    ensures forall u :: u in AllUsers(fetches) ==> u.id != id
  {
    if fetches != [] {
      var n := |fetches| - 1;
      NotListedBefore(fetches[..n], id);
      assert forall u :: u in UsersOf(fetches[n]) ==> u.id != id;
    }
  }

  lemma FirstInList(fetches: seq<Fetch>, id: int, i: nat, j: nat) returns (k: nat)
    requires FirstPanelWith(fetches, id, i, j)
    ensures FirstWithId(AllUsers(fetches), id, k) && AllUsers(fetches)[k] == UsersOf(fetches[i])[j]
  {
    var list, upto := AllUsers(fetches), AllUsers(fetches[..i]) + UsersOf(fetches[i]);
    k := |AllUsers(fetches[..i])| + j;
    PanelsInOrder(fetches, i);
    NotListedBefore(fetches[..i], id);
    assert list[k] == upto[k];
    forall q | 0 <= q < k
      ensures list[q].id != id
    {
      assert list[q] == upto[q];
    }
  }

  lemma OnlyFirstWithId(list: seq<User>, id: int, k: nat)
    requires id > 0 && FirstWithId(list, id, k)
    ensures list[k] in FirstWins(list) && forall u :: u in FirstWins(list) && u.id == id ==> u == list[k]
  {
    FirstOneIsKept(list, id);
    assert forall i :: FirstWithId(list, id, i) ==> i == k;
    var m :| 0 <= m < |FirstWins(list)| && FirstWins(list)[m].id == id;
  }

  // The first panel that lists a positive id decides: the merged list has its user.
  lemma FirstPanelDecides(fetches: seq<Fetch>, id: int, i: nat, j: nat)
    requires id > 0 && FirstPanelWith(fetches, id, i, j)
    ensures UsersOf(fetches[i])[j] in FirstWins(AllUsers(fetches))
    ensures forall u :: u in FirstWins(AllUsers(fetches)) && u.id == id ==> u == UsersOf(fetches[i])[j]
  {
    var k := FirstInList(fetches, id, i, j);
    OnlyFirstWithId(AllUsers(fetches), id, k);
  }
}
