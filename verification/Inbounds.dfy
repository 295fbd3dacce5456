/**
 The user tables of the inbounds, changed in place by the deletions and additions
 that a new user list makes necessary (cmd/star1ight-agent/user_manager.go).
 */
module Inbounds {
  import opened Text
  import opened InboundTables

  // ------------------------------------------------------------- sorted ids

  ghost predicate Ascending(ids: seq<nat>) { forall i, j :: 0 <= i < j < |ids| ==> ids[i] < ids[j] }

  predicate Least(s: set<nat>, x: nat) { x in s && forall y :: y in s ==> x <= y }

  lemma {:induction false} LeastOf(s: set<nat>) returns (x: nat)
    requires s != {}
    ensures Least(s, x)
  {
    var z :| z in s;
    x := z;
    if s != {z} {
      assert s - {z} != {} by {
        assert s == (s - {z}) + {z};
      }
      var rest := LeastOf(s - {z});
      x := if rest < z then rest else z;
      assert forall y :: y in s ==> y == z || y in s - {z};
    }
  }

  method SortIds(s: set<nat>) returns (ids: seq<nat>)
    ensures Ascending(ids) && forall x :: x in ids <==> x in s
  {
    ids := [];
    var todo := s;
    while todo != {}
      invariant todo <= s && Ascending(ids)
      invariant forall x :: x in ids <==> x in s && x !in todo
      invariant forall x, y :: x in ids && y in todo ==> x < y
    {
      ghost var least := LeastOf(todo);
      var id :| id in todo && Least(todo, id);
      assert forall i :: 0 <= i < |ids| ==> ids[i] in ids;
      forall y | y in todo - {id}
        ensures id < y
      {
        assert Least(todo, id) && y in todo;
      }
      ids := ids + [id];
      todo := todo - {id};
    }
  }

  // ------------------------------------------------------------------ the diff

  // The deletions and additions for the tables of one kind.
  ghost predicate DiffIs(kind: Kind, prev: Users, next: Users, keys: seq<string>, rows: seq<Row>, owners: seq<nat>) {
    && (forall key :: key in keys <==> Deleted(kind, prev, next, key))
    && RowsFor(kind, prev, next, rows, owners)
    && (forall id, key :: AddedAs(kind, prev, next, id, key) ==> id in owners)
  }

  method DiffOf(kind: Kind, prev: Users, next: Users, ids: seq<nat>)
    returns (keys: seq<string>, rows: seq<Row>, ghost owners: seq<nat>)
    requires Ascending(ids) && forall id :: id in ids <==> id in next
    ensures DiffIs(kind, prev, next, keys, rows, owners)
  {
    keys := DeletedKeys(kind, prev, next);
    rows, owners := AddedRows(kind, prev, next, ids);
  }

  method DeletedKeys(kind: Kind, prev: Users, next: Users) returns (keys: seq<string>)
    ensures forall key :: key in keys <==> Deleted(kind, prev, next, key)
  {
    keys := [];
    var todo := prev.Keys;
    while todo != {}
      invariant todo <= prev.Keys
      invariant forall key :: key in keys <==>
                  exists id :: id !in todo && Leaves(prev, next, id) && HasKey(kind, prev[id], key)
    {
      var id :| id in todo;
      ghost var before, left := keys, todo;
      var row := RowFor(kind, prev[id]);
      if (id !in next || SecretsChanged(prev[id], next[id])) && row.Some? {
        keys := keys + [Key(row.value)];
      }
      todo := todo - {id};
      DeletedStep(kind, prev, next, before, keys, left, id);
    }
  }

  lemma DeletedStep(kind: Kind, prev: Users, next: Users, before: seq<string>, keys: seq<string>, todo: set<nat>,
                    id: nat)
    requires id in todo && id in prev
    requires forall key :: key in before <==>
               exists i :: i !in todo && Leaves(prev, next, i) && HasKey(kind, prev[i], key)
    requires forall key :: key in keys <==> key in before || (Leaves(prev, next, id) && HasKey(kind, prev[id], key))
    ensures forall key :: key in keys <==>
              exists i :: i !in todo - {id} && Leaves(prev, next, i) && HasKey(kind, prev[i], key)
  {
    forall key
      ensures key in keys <==> exists i :: i !in todo - {id} && Leaves(prev, next, i) && HasKey(kind, prev[i], key)
    {
      if key in before {
        var i :| i !in todo && Leaves(prev, next, i) && HasKey(kind, prev[i], key);
        assert i !in todo - {id};
      }
    }
  }

  // The rows to add, in the order of the ids they belong to.
  ghost predicate RowsFor(kind: Kind, prev: Users, next: Users, rows: seq<Row>, owners: seq<nat>) {
    && |owners| == |rows| && Ascending(owners)
    && (forall j :: 0 <= j < |rows| ==> AddedAs(kind, prev, next, owners[j], Key(rows[j])))
    && (forall j :: 0 <= j < |rows| ==> RowFor(kind, next[owners[j]]) == Some(rows[j]))
  }

  method AddedRows(kind: Kind, prev: Users, next: Users, ids: seq<nat>) returns (rows: seq<Row>, ghost owners: seq<nat>)
    requires Ascending(ids) && forall id :: id in ids <==> id in next
    ensures forall r :: r in rows <==> exists id :: Enters(prev, next, id) && RowFor(kind, next[id]) == Some(r)
    ensures RowsFor(kind, prev, next, rows, owners)
    ensures forall id, key :: AddedAs(kind, prev, next, id, key) ==> id in owners
  {
    rows, owners := [], [];
    for i := 0 to |ids|
      invariant RowsFor(kind, prev, next, rows, owners)
      invariant forall j :: 0 <= j < |owners| ==> owners[j] in ids[..i]
      invariant forall id, key :: id in ids[..i] && AddedAs(kind, prev, next, id, key) ==> id in owners
    {
      var id := ids[i];
      EarlierIds(ids, i);
      assert id in ids;
      if !(id in prev && prev[id] == next[id]) {
        var row := RowFor(kind, next[id]);
        if row.Some? {
          AppendRow(kind, prev, next, rows, owners, id);
          rows, owners := rows + [row.value], owners + [id];
        }
      }
    }
    assert ids[..|ids|] == ids;
    RowsAre(kind, prev, next, rows, owners);
  }

  lemma AppendRow(kind: Kind, prev: Users, next: Users, rows: seq<Row>, owners: seq<nat>, id: nat)
    requires RowsFor(kind, prev, next, rows, owners) && forall j :: 0 <= j < |owners| ==> owners[j] < id
    requires Enters(prev, next, id) && RowFor(kind, next[id]).Some?
    ensures RowsFor(kind, prev, next, rows + [RowFor(kind, next[id]).value], owners + [id])
  {}

  lemma RowsAre(kind: Kind, prev: Users, next: Users, rows: seq<Row>, owners: seq<nat>)
    requires RowsFor(kind, prev, next, rows, owners)
    requires forall id, key :: AddedAs(kind, prev, next, id, key) ==> id in owners
    ensures forall r :: r in rows <==> exists id :: Enters(prev, next, id) && RowFor(kind, next[id]) == Some(r)
  {
    forall r
      ensures r in rows <==> exists id :: Enters(prev, next, id) && RowFor(kind, next[id]) == Some(r)
    {
      if r in rows {
        var j :| 0 <= j < |rows| && rows[j] == r;
        assert AddedAs(kind, prev, next, owners[j], Key(rows[j]));
      }
      if id :| Enters(prev, next, id) && RowFor(kind, next[id]) == Some(r) {
        assert AddedAs(kind, prev, next, id, Key(r));
        var j :| 0 <= j < |owners| && owners[j] == id;
        assert rows[j] == r;
      }
    }
  }

  lemma EarlierIds(ids: seq<nat>, i: nat)
    requires Ascending(ids) && i < |ids|
    ensures forall id :: id in ids[..i + 1] <==> id in ids[..i] || id == ids[i]
    ensures forall id :: id in ids[..i] ==> id < ids[i]
  {
    assert ids[..i + 1] == ids[..i] + [ids[i]];
  }

  // --------------------------------------------------------------- the tables

  function AddAll(t: Table, rows: seq<Row>): Table {
    if rows == [] then t
    else AddAll(t, rows[..|rows| - 1])[Key(rows[|rows| - 1]) := rows[|rows| - 1]]
  }

  ghost predicate LastWith(rows: seq<Row>, key: string, j: int) {
    0 <= j < |rows| && Key(rows[j]) == key && forall i :: j < i < |rows| ==> Key(rows[i]) != key
  }

  ghost predicate Mentioned(rows: seq<Row>, key: string) { exists j :: 0 <= j < |rows| && Key(rows[j]) == key }

  lemma {:induction false} AddAllAt(t: Table, rows: seq<Row>, key: string)
    ensures !Mentioned(rows, key) ==> SameAt(t, AddAll(t, rows), key)
    ensures Mentioned(rows, key) ==>
              key in AddAll(t, rows) && exists j :: LastWith(rows, key, j) && AddAll(t, rows)[key] == rows[j]
  {
    if rows != [] {
      var n := |rows| - 1;
      AddAllAt(t, rows[..n], key);
      if Key(rows[n]) == key {
        assert LastWith(rows, key, n);
      } else if Mentioned(rows, key) {
        var i :| 0 <= i < |rows| && Key(rows[i]) == key;
        assert rows[..n][i] == rows[i];
        var j :| LastWith(rows[..n], key, j) && AddAll(t, rows[..n])[key] == rows[..n][j];
        assert LastWith(rows, key, j);
      }
    }
  }

  // Deleting the keys of the difference and then adding its rows patches a table.
  lemma DiffPatches(kind: Kind, prev: Users, next: Users, t: Table, keys: seq<string>, rows: seq<Row>,
                    owners: seq<nat>, t': Table)
    requires DiffIs(kind, prev, next, keys, rows, owners)
    requires t' == AddAll(t - (set k | k in keys), rows)
    ensures Patched(kind, prev, next, t, t')
  {
    forall key
      ensures PatchedAt(kind, prev, next, t, t', key)
    {
      AddAllAt(t - (set k | k in keys), rows, key);
      MentionedIsAdded(kind, prev, next, rows, owners, key);
      if Mentioned(rows, key) {
        var j :| LastWith(rows, key, j) && t'[key] == rows[j];
        LastWins(kind, prev, next, rows, owners, key, j);
      }
    }
  }

  lemma MentionedIsAdded(kind: Kind, prev: Users, next: Users, rows: seq<Row>, owners: seq<nat>, key: string)
    requires RowsFor(kind, prev, next, rows, owners)
    requires forall id, key :: AddedAs(kind, prev, next, id, key) ==> id in owners
    ensures Mentioned(rows, key) <==> Added(kind, prev, next, key)
  {
    if id :| AddedAs(kind, prev, next, id, key) {
      var j :| 0 <= j < |owners| && owners[j] == id;
      assert Key(rows[j]) == key;
    }
  }

  lemma LastWins(kind: Kind, prev: Users, next: Users, rows: seq<Row>, owners: seq<nat>, key: string, j: int)
    requires RowsFor(kind, prev, next, rows, owners) && LastWith(rows, key, j)
    requires forall id, key :: AddedAs(kind, prev, next, id, key) ==> id in owners
    ensures Wins(kind, prev, next, owners[j], key) && RowFor(kind, next[owners[j]]) == Some(rows[j])
  {
    forall id | AddedAs(kind, prev, next, id, key)
      ensures id <= owners[j]
    {
      var i :| 0 <= i < |owners| && owners[i] == id;
      assert Key(rows[i]) == key;
    }
  }

  // An inbound with its user table. An operation that fails, after `stop` entries,
  // leaves the table as it is by then.
  class Inbound {
    const kind: Kind
    var table: Table

    constructor (kind: Kind, table: Table)
      ensures this.kind == kind && this.table == table
    {
      this.kind, this.table := kind, table;
    }

    method DelUsers(keys: seq<string>, stop: Option<nat>) returns (ok: bool)
      modifies this`table
      ensures ok == stop.None?
      ensures ok ==> table == old(table) - (set k | k in keys)
      ensures forall key :: key !in keys ==> SameAt(old(table), table, key)
    {
      for i := 0 to |keys|
        invariant table == old(table) - (set k | k in keys[..i])
      {
        if stop == Some(i) {
          return false;
        }
        assert keys[..i + 1] == keys[..i] + [keys[i]];
        table := table - {keys[i]};
      }
      assert keys[..|keys|] == keys;
      ok := stop.None?;
    }

    method AddUsers(rows: seq<Row>, stop: Option<nat>) returns (ok: bool)
      modifies this`table
      ensures ok == stop.None?
      ensures ok ==> table == AddAll(old(table), rows)
      ensures forall key :: !Mentioned(rows, key) ==> SameAt(old(table), table, key)
    {
      for i := 0 to |rows|
        invariant table == AddAll(old(table), rows[..i])
      {
        if stop == Some(i) {
          PrefixTouches(old(table), rows, i);
          return false;
        }
        assert rows[..i + 1][..i] == rows[..i];
        table := table[Key(rows[i]) := rows[i]];
      }
      assert rows[..|rows|] == rows;
      PrefixTouches(old(table), rows, |rows|);
      ok := stop.None?;
    }
  }

  lemma PrefixTouches(t: Table, rows: seq<Row>, n: nat)
    requires n <= |rows|
    ensures forall key :: !Mentioned(rows, key) ==> SameAt(t, AddAll(t, rows[..n]), key)
  {
    forall key | !Mentioned(rows, key)
      ensures SameAt(t, AddAll(t, rows[..n]), key)
    {
      AddAllAt(t, rows[..n], key);
    }
  }

  // An operation fails; one that has nothing to do is left out and cannot.
  ghost predicate Blocked(kind: Kind, prev: Users, next: Users, delStop: Option<nat>, addStop: Option<nat>) {
    (delStop.Some? && AnyDeleted(kind, prev, next)) || (addStop.Some? && AnyAdded(kind, prev, next))
  }

  ghost predicate AnyDeleted(kind: Kind, prev: Users, next: Users) { exists key :: Deleted(kind, prev, next, key) }

  ghost predicate AnyAdded(kind: Kind, prev: Users, next: Users) { exists key :: Added(kind, prev, next, key) }

  lemma EmptyDiff(kind: Kind, prev: Users, next: Users, keys: seq<string>, rows: seq<Row>, owners: seq<nat>)
    requires DiffIs(kind, prev, next, keys, rows, owners)
    ensures keys == [] <==> !exists key :: Deleted(kind, prev, next, key)
    ensures rows == [] <==> !exists key :: Added(kind, prev, next, key)
  {
    if keys != [] {
      assert keys[0] in keys;
    }
    if rows != [] {
      assert AddedAs(kind, prev, next, owners[0], Key(rows[0]));
      assert Added(kind, prev, next, Key(rows[0]));
    } else {
      forall key
        ensures !Added(kind, prev, next, key)
      {}
    }
  }

  // Brings one inbound up to date; an operation without entries is left out.
  method UpdateInbound(inbound: Inbound, ghost prev: Users, ghost next: Users, keys: seq<string>, rows: seq<Row>,
                       ghost owners: seq<nat>, delStop: Option<nat>, addStop: Option<nat>) returns (ok: bool)
    requires DiffIs(inbound.kind, prev, next, keys, rows, owners)
    modifies inbound`table
    ensures UpdatedAt(inbound, old(inbound.table), inbound.table, prev, next, ok)
    ensures ok <==> !Blocked(inbound.kind, prev, next, delStop, addStop)
  {
    forall key
      ensures Mentioned(rows, key) <==> Added(inbound.kind, prev, next, key)
    {
      MentionedIsAdded(inbound.kind, prev, next, rows, owners, key);
    }
    EmptyDiff(inbound.kind, prev, next, keys, rows, owners);
    if |keys| > 0 {
      ok := inbound.DelUsers(keys, delStop);
      if !ok {
        return;
      }
    }
    assert inbound.table == old(inbound.table) - (set k | k in keys);
    if |rows| > 0 {
      ok := inbound.AddUsers(rows, addStop);
      if !ok {
        return;
      }
    }
    DiffPatches(inbound.kind, prev, next, old(inbound.table), keys, rows, owners, inbound.table);
    ok := true;
  }

  // Where the deletion and the addition at each inbound fail, if they do.
  type Stops = nat -> (Option<nat>, Option<nat>)

  ghost predicate Passes(inbounds: seq<Inbound>, prev: Users, next: Users, stops: Stops) {
    forall i :: 0 <= i < |inbounds| ==> !Blocked(inbounds[i].kind, prev, next, stops(i).0, stops(i).1)
  }

  // The first `done` inbounds take the list and the next one, if there is one, fails.
  ghost predicate StopsAfter(inbounds: seq<Inbound>, prev: Users, next: Users, stops: Stops, done: nat) {
    && done <= |inbounds|
    && (forall i :: 0 <= i < done ==> !Blocked(inbounds[i].kind, prev, next, stops(i).0, stops(i).1))
    && (done < |inbounds| ==> Blocked(inbounds[done].kind, prev, next, stops(done).0, stops(done).1))
  }

  lemma PassesIff(inbounds: seq<Inbound>, prev: Users, next: Users, stops: Stops, done: nat)
    requires StopsAfter(inbounds, prev, next, stops, done)
    ensures Passes(inbounds, prev, next, stops) <==> done == |inbounds|
  {}

  // No inbound is listed twice.
  ghost predicate Distinct(inbounds: seq<Inbound>) {
    forall i, j :: 0 <= i < j < |inbounds| ==> inbounds[i] != inbounds[j]
  }

  ghost function Tables(inbounds: seq<Inbound>): (t: seq<Table>)
    reads inbounds
    ensures |t| == |inbounds| && forall i :: 0 <= i < |t| ==> t[i] == inbounds[i].table
  {
    seq(|inbounds|, i requires 0 <= i < |inbounds| reads inbounds => inbounds[i].table)
  }

  // What an update may do to the table of one inbound.
  ghost predicate UpdatedAt(inbound: Inbound, t: Table, t': Table, prev: Users, next: Users, ok: bool) {
    Touched(inbound.kind, prev, next, t, t') && (ok ==> Patched(inbound.kind, prev, next, t, t'))
  }

  ghost predicate DoneAt(inbound: Inbound, t: Table, t': Table, prev: Users, next: Users, delStop: Option<nat>,
                         addStop: Option<nat>) {
    UpdatedAt(inbound, t, t', prev, next, true) && !Blocked(inbound.kind, prev, next, delStop, addStop)
  }

  // A success patches every table; a failure touches only keys of the difference.
  ghost predicate Updated(inbounds: seq<Inbound>, before: seq<Table>, after: seq<Table>, prev: Users, next: Users,
                          ok: bool)
  {
    && |before| == |after| == |inbounds|
    && forall i :: 0 <= i < |inbounds| ==> UpdatedAt(inbounds[i], before[i], after[i], prev, next, ok)
  }

  // The first `done` tables are patched, the next one is touched and the others are as
  // they were.
  ghost predicate UpdatedTo(inbounds: seq<Inbound>, before: seq<Table>, after: seq<Table>, prev: Users, next: Users,
                            done: nat)
  {
    && |before| == |after| == |inbounds|
    && (forall i :: 0 <= i < |inbounds| && i <= done ==>
          UpdatedAt(inbounds[i], before[i], after[i], prev, next, i < done))
    && (forall i :: done < i < |inbounds| ==> after[i] == before[i])
  }

  lemma UpdatedToIsUpdated(inbounds: seq<Inbound>, before: seq<Table>, after: seq<Table>, prev: Users, next: Users,
                           done: nat)
    requires UpdatedTo(inbounds, before, after, prev, next, done)
    ensures Updated(inbounds, before, after, prev, next, done >= |inbounds|)
  {
    forall i | 0 <= i < |inbounds|
      ensures UpdatedAt(inbounds[i], before[i], after[i], prev, next, done >= |inbounds|)
    {
      if i <= done {
        assert UpdatedAt(inbounds[i], before[i], after[i], prev, next, i < done);
      }
    }
  }

  // Brings one inbound up to date with the difference for its kind.
  method UpdateByKind(inbound: Inbound, ghost prev: Users, ghost next: Users,
                      vlessKeys: seq<string>, vlessRows: seq<Row>, ghost vlessOwners: seq<nat>,
                      hy2Keys: seq<string>, hy2Rows: seq<Row>, ghost hy2Owners: seq<nat>,
                      ssKeys: seq<string>, ssRows: seq<Row>, ghost ssOwners: seq<nat>,
                      delStop: Option<nat>, addStop: Option<nat>) returns (ok: bool)
    requires DiffIs(Vless, prev, next, vlessKeys, vlessRows, vlessOwners)
    requires DiffIs(Hysteria2, prev, next, hy2Keys, hy2Rows, hy2Owners)
    requires DiffIs(Shadowsocks, prev, next, ssKeys, ssRows, ssOwners)
    modifies inbound`table
    ensures UpdatedAt(inbound, old(inbound.table), inbound.table, prev, next, ok)
    ensures ok <==> !Blocked(inbound.kind, prev, next, delStop, addStop)
  {
    match inbound.kind
    case Vless => ok := UpdateInbound(inbound, prev, next, vlessKeys, vlessRows, vlessOwners, delStop, addStop);
    case Hysteria2 => ok := UpdateInbound(inbound, prev, next, hy2Keys, hy2Rows, hy2Owners, delStop, addStop);
    case Shadowsocks => ok := UpdateInbound(inbound, prev, next, ssKeys, ssRows, ssOwners, delStop, addStop);
    case Other =>
      OthersStay(prev, next, inbound.table);
      ok := true;
  }

  // Brings the inbounds up to date, one after the other, up to the first failure.
  method UpdateInbounds(inbounds: seq<Inbound>, prev: Users, next: Users, ids: seq<nat>, stops: Stops)
    returns (ok: bool, ghost done: nat)
    requires Ascending(ids) && (forall id :: id in ids <==> id in next) && Distinct(inbounds)
    modifies inbounds`table
    ensures UpdatedTo(inbounds, old(Tables(inbounds)), Tables(inbounds), prev, next, done)
    ensures StopsAfter(inbounds, prev, next, stops, done) && (ok <==> done == |inbounds|)
  {
    var vlessKeys, vlessRows, vlessOwners := DiffOf(Vless, prev, next, ids);
    var hy2Keys, hy2Rows, hy2Owners := DiffOf(Hysteria2, prev, next, ids);
    var ssKeys, ssRows, ssOwners := DiffOf(Shadowsocks, prev, next, ids);
    ok, done := UpdateEach(inbounds, prev, next, vlessKeys, vlessRows, vlessOwners, hy2Keys, hy2Rows, hy2Owners,
                     ssKeys, ssRows, ssOwners, stops);
  }

  method UpdateEach(inbounds: seq<Inbound>, ghost prev: Users, ghost next: Users,
                    vlessKeys: seq<string>, vlessRows: seq<Row>, ghost vlessOwners: seq<nat>,
                    hy2Keys: seq<string>, hy2Rows: seq<Row>, ghost hy2Owners: seq<nat>,
                    ssKeys: seq<string>, ssRows: seq<Row>, ghost ssOwners: seq<nat>, stops: Stops)
    returns (ok: bool, ghost done: nat)
    requires DiffIs(Vless, prev, next, vlessKeys, vlessRows, vlessOwners)
    requires DiffIs(Hysteria2, prev, next, hy2Keys, hy2Rows, hy2Owners)
    requires DiffIs(Shadowsocks, prev, next, ssKeys, ssRows, ssOwners)
    requires Distinct(inbounds)
    modifies inbounds`table
    ensures UpdatedTo(inbounds, old(Tables(inbounds)), Tables(inbounds), prev, next, done)
    ensures StopsAfter(inbounds, prev, next, stops, done) && (ok <==> done == |inbounds|)
  {
    done := 0;
    ghost var before := Tables(inbounds);
    for i := 0 to |inbounds|
      invariant done == i && Progress(inbounds, before, Tables(inbounds), i, prev, next, stops)
    {
      var (delStop, addStop) := stops(i);
      ghost var now := Tables(inbounds);
      ok := UpdateAt(inbounds, i, prev, next, vlessKeys, vlessRows, vlessOwners, hy2Keys, hy2Rows, hy2Owners,
                     ssKeys, ssRows, ssOwners, delStop, addStop);
      ProgressStep(inbounds, before, now, Tables(inbounds), i, prev, next, stops, ok);
      if !ok {
        return;
      }
      done := i + 1;
    }
    ok := true;
  }

  // The first `n` inbounds are up to date, the others as they were.
  ghost predicate Progress(inbounds: seq<Inbound>, before: seq<Table>, after: seq<Table>, n: nat, prev: Users,
                           next: Users,
                           stops: Stops) {
    && |before| == |after| == |inbounds| && n <= |inbounds|
    && (forall j :: 0 <= j < n ==> DoneAt(inbounds[j], before[j], after[j], prev, next, stops(j).0, stops(j).1))
    && (forall j :: n <= j < |inbounds| ==> after[j] == before[j])
  }

  lemma ProgressStep(inbounds: seq<Inbound>, before: seq<Table>, now: seq<Table>, after: seq<Table>, i: nat,
                     prev: Users, next: Users, stops: Stops, ok: bool)
    requires i < |inbounds| && Progress(inbounds, before, now, i, prev, next, stops)
    requires |after| == |now| && after == now[i := after[i]]
    requires UpdatedAt(inbounds[i], now[i], after[i], prev, next, ok)
    requires ok <==> !Blocked(inbounds[i].kind, prev, next, stops(i).0, stops(i).1)
    ensures ok ==> Progress(inbounds, before, after, i + 1, prev, next, stops)
    ensures !ok ==> UpdatedTo(inbounds, before, after, prev, next, i) && StopsAfter(inbounds, prev, next, stops, i)
  {}

  method UpdateAt(inbounds: seq<Inbound>, i: nat, ghost prev: Users, ghost next: Users,
                  vlessKeys: seq<string>, vlessRows: seq<Row>, ghost vlessOwners: seq<nat>,
                  hy2Keys: seq<string>, hy2Rows: seq<Row>, ghost hy2Owners: seq<nat>,
                  ssKeys: seq<string>, ssRows: seq<Row>, ghost ssOwners: seq<nat>,
                  delStop: Option<nat>, addStop: Option<nat>) returns (ok: bool)
    requires DiffIs(Vless, prev, next, vlessKeys, vlessRows, vlessOwners)
    requires DiffIs(Hysteria2, prev, next, hy2Keys, hy2Rows, hy2Owners)
    requires DiffIs(Shadowsocks, prev, next, ssKeys, ssRows, ssOwners)
    requires Distinct(inbounds) && i < |inbounds|
    modifies {inbounds[i]}`table
    ensures Tables(inbounds) == old(Tables(inbounds))[i := inbounds[i].table]
    ensures UpdatedAt(inbounds[i], old(inbounds[i].table), inbounds[i].table, prev, next, ok)
    ensures ok <==> !Blocked(inbounds[i].kind, prev, next, delStop, addStop)
  {
    ok := UpdateByKind(inbounds[i], prev, next, vlessKeys, vlessRows, vlessOwners, hy2Keys, hy2Rows, hy2Owners,
                       ssKeys, ssRows, ssOwners, delStop, addStop);
    assert forall j :: 0 <= j < |inbounds| && j != i ==> inbounds[j].table == old(inbounds[j].table);
  }
}
