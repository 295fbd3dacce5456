/**
 What the tracker tells the panel about devices: the snapshot of the reference
 index, the difference between the last acknowledged report and a snapshot, and
 the application of a difference.
 */
module Alive {
  import opened RefCounts
  import opened Sorting

  // The addresses of each user on each inbound.
  type Row = map<string, seq<string>>
  type Report = map<string, Row>

  function RowOf(m: Report, inbound: string): Row {
    if inbound in m then m[inbound] else map[]
  }

  function Get(row: Row, user: string): seq<string> {
    if user in row then row[user] else []
  }

  function At(m: Report, inbound: string, user: string): seq<string> { Get(RowOf(m, inbound), user) }

  predicate Has(m: Report, inbound: string, user: string) { user in RowOf(m, inbound) }

  // No empty row, no empty list, every list one that sorting leaves alone.
  ghost predicate WellFormed(m: Report) {
    forall i :: i in m ==> m[i] != map[] && WellFormedRow(m[i])
  }

  ghost predicate WellFormedRow(row: Row) {
    forall u :: u in row ==> row[u] != [] && Sort(row[u]) == row[u]
  }

  ghost function SnapshotRow(users: map<string, map<string, int>>): Row {
    map u | u in users :: Listing(users[u].Keys)
  }

  ghost predicate IsListing(ips: seq<string>, peers: map<string, int>) { ips == Listing(peers.Keys) }

  lemma ListedRow(users: map<string, map<string, int>>, row: Row)
    requires row.Keys == users.Keys && forall u :: u in row ==> IsListing(row[u], users[u])
    ensures row == SnapshotRow(users)
  {}

  ghost function Snapshot(devices: Refs): Report {
    map i | i in devices :: SnapshotRow(devices[i])
  }

  lemma SnapshotWellFormed(devices: Refs)
    requires Compact(devices)
    ensures WellFormed(Snapshot(devices))
  {
    forall i | i in devices
      ensures SnapshotRow(devices[i]) != map[] && WellFormedRow(SnapshotRow(devices[i]))
    {
      var users := devices[i];
      var u :| u in users;
      assert u in SnapshotRow(users);
      forall u | u in users
        ensures Listing(users[u].Keys) != [] && Sort(Listing(users[u].Keys)) == Listing(users[u].Keys)
      {
        ListingIs(users[u].Keys);
        SortedIsSorted(Listing(users[u].Keys));
        var k :| k in users[u];
        ListingHas(users[u].Keys, k);
      }
    }
  }

  // A snapshot lists an address for a user exactly when it holds a reference.
  lemma SnapshotLists(devices: Refs, inbound: string, user: string, ip: string)
    requires Compact(devices)
    ensures ip in At(Snapshot(devices), inbound, user) <==> Count(devices, inbound, user, ip) > 0
  {
    CompactPeers(devices, inbound, user);
    ListingHas(Peers(devices, inbound, user).Keys, ip);
  }

  // ------------------------------------------------------ difference and patch

  // What changed for the users of one inbound; [] tells that a user has left.
  function DeltaRow(last: Row, current: Row): Row {
    map u | u in last.Keys + current.Keys && (u in current ==> Get(last, u) != current[u]) :: Get(current, u)
  }

  function Delta(last: Report, current: Report): Report {
    map i | i in last.Keys + current.Keys && DeltaRow(RowOf(last, i), RowOf(current, i)) != map[]
      :: DeltaRow(RowOf(last, i), RowOf(current, i))
  }

  function CommitRow(row: Row, payload: Row): Row {
    map u | u in row.Keys + payload.Keys && (u in payload ==> payload[u] != [])
      :: if u in payload then Sort(payload[u]) else row[u]
  }

  // An empty payload for an inbound clears it.
  function PatchRow(row: Row, payload: Row): Row {
    if payload == map[] then map[] else CommitRow(row, payload)
  }

  // The row an inbound has after a commit; an empty one is not stored.
  function CommittedRow(last: Report, payload: Report, inbound: string): Row {
    if inbound !in payload then RowOf(last, inbound) else PatchRow(RowOf(last, inbound), payload[inbound])
  }

  function Committed(last: Report, payload: Report): Report {
    map i | i in last.Keys + payload.Keys && (i in payload ==> CommittedRow(last, payload, i) != map[])
      :: CommittedRow(last, payload, i)
  }

  // The same two functions told user by user.
  ghost predicate IsDelta(last: Row, current: Row, d: Row) {
    && (forall u :: u in d <==> if u in current then Get(last, u) != current[u] else u in last)
    && (forall u :: u in d ==> d[u] == Get(current, u))
  }

  ghost predicate IsCommit(row: Row, payload: Row, r: Row) {
    && (forall u :: u in r <==> if u in payload then payload[u] != [] else u in row)
    && (forall u :: u in r ==> r[u] == if u in payload then Sort(payload[u]) else row[u])
  }

  lemma DeltaRowIs(last: Row, current: Row)
    ensures IsDelta(last, current, DeltaRow(last, current))
  {}

  lemma CommitRowIs(row: Row, payload: Row)
    ensures IsCommit(row, payload, CommitRow(row, payload))
  {}

  lemma PatchedRow(last: Row, current: Row, d: Row, r: Row)
    requires WellFormedRow(last) && WellFormedRow(current) && IsDelta(last, current, d) && IsCommit(last, d, r)
    ensures r == current
    ensures d == map[] ==> last == current
  {
    assert forall u :: u in r <==> u in current;
    assert d == map[] ==> forall u :: u in last <==> u in current;
  }

  ghost predicate IsDeltaReport(last: Report, current: Report, d: Report) {
    forall i :: IsDelta(RowOf(last, i), RowOf(current, i), RowOf(d, i)) && (i in d ==> d[i] != map[])
  }

  ghost predicate CommittedAt(last: Report, payload: Report, r: Report, i: string) {
    RowOf(r, i) == CommittedRow(last, payload, i) && (i in r ==> r[i] != map[])
  }

  predicate SameAt(last: Report, r: Report, i: string) {
    (i in r <==> i in last) && RowOf(r, i) == RowOf(last, i)
  }

  ghost predicate IsCommitted(last: Report, payload: Report, r: Report) {
    forall i :: if i in payload then CommittedAt(last, payload, r, i) else SameAt(last, r, i)
  }

  lemma DeltaIs(last: Report, current: Report)
    ensures IsDeltaReport(last, current, Delta(last, current))
  {
    forall i {
      DeltaIsAt(last, current, i);
    }
  }

  lemma DeltaIsAt(last: Report, current: Report, i: string)
    ensures IsDelta(RowOf(last, i), RowOf(current, i), RowOf(Delta(last, current), i))
    ensures i in Delta(last, current) ==> Delta(last, current)[i] != map[]
  {
    DeltaRowIs(RowOf(last, i), RowOf(current, i));
    assert RowOf(Delta(last, current), i) == DeltaRow(RowOf(last, i), RowOf(current, i));
  }

  lemma CommittedIs(last: Report, payload: Report)
    ensures IsCommitted(last, payload, Committed(last, payload))
  {
    forall i {
      CommittedIsAt(last, payload, i);
    }
  }

  lemma CommittedIsAt(last: Report, payload: Report, i: string)
    ensures if i in payload then CommittedAt(last, payload, Committed(last, payload), i)
            else SameAt(last, Committed(last, payload), i)
  {}

  // What any payload makes of a report: it replaces the addresses of the users that it
  // mentions, sorted, and an inbound without users is cleared.
  lemma PayloadReplaces(last: Report, payload: Report, inbound: string, user: string)
    ensures At(Committed(last, payload), inbound, user)
            == if inbound !in payload then At(last, inbound, user)
               else if payload[inbound] == map[] then []
               else if user in payload[inbound] then Sort(payload[inbound][user])
               else At(last, inbound, user)
  {
    CommittedIsAt(last, payload, inbound);
    CommitRowIs(RowOf(last, inbound), RowOf(payload, inbound));
  }

  // Committing the difference to a snapshot turns the report into the snapshot.
  lemma CommitDelta(last: Report, current: Report)
    requires WellFormed(last) && WellFormed(current)
    ensures Committed(last, Delta(last, current)) == current
  {
    DeltaIs(last, current);
    CommittedIs(last, Delta(last, current));
    PatchedReport(last, current, Delta(last, current), Committed(last, Delta(last, current)));
  }

  lemma PatchedReport(last: Report, current: Report, d: Report, r: Report)
    requires WellFormed(last) && WellFormed(current) && IsDeltaReport(last, current, d) && IsCommitted(last, d, r)
    ensures r == current
  {
    forall i
      ensures SameAt(current, r, i)
    {
      PatchedRowOf(last, current, d, r, i);
    }
    SameRows(r, current);
  }

  lemma PatchedRowOf(last: Report, current: Report, d: Report, r: Report, i: string)
    requires WellFormed(last) && WellFormed(current)
    requires IsDelta(RowOf(last, i), RowOf(current, i), RowOf(d, i)) && (i in d ==> d[i] != map[])
    requires if i in d then CommittedAt(last, d, r, i) else SameAt(last, r, i)
    ensures (i in r <==> i in current) && RowOf(r, i) == RowOf(current, i)
  {
    var patched := CommitRow(RowOf(last, i), RowOf(d, i));
    CommitRowIs(RowOf(last, i), RowOf(d, i));
    PatchedRow(RowOf(last, i), RowOf(current, i), RowOf(d, i), patched);
  }

  lemma SameRows(a: Report, b: Report)
    requires forall i :: SameAt(b, a, i)
    ensures a == b
  {
    forall i
      ensures (i in a <==> i in b) && (i in a ==> a[i] == b[i])
    {
      assert SameAt(b, a, i);
    }
  }

  // Right after a commit there is nothing left to report.
  lemma NothingAfterCommit(last: Report, current: Report)
    requires WellFormed(last) && WellFormed(current)
    ensures Delta(Committed(last, Delta(last, current)), current) == map[]
  {
    CommitDelta(last, current);
    DeltaIs(current, current);
    NoDelta(current, Delta(current, current));
  }

  lemma NoDelta(current: Report, d: Report)
    requires IsDeltaReport(current, current, d)
    ensures d == map[]
  {
    forall i
      ensures i !in d
    {
      assert forall u :: u !in RowOf(d, i);
      assert RowOf(d, i) == map[];
    }
  }

  // A difference mentions a pair exactly when its addresses changed, with the
  // new addresses, and the mention is a tombstone exactly when the pair vanished.
  lemma DeltaIsExact(last: Report, current: Report, inbound: string, user: string)
    requires WellFormed(last) && WellFormed(current)
    ensures Has(Delta(last, current), inbound, user) <==> At(last, inbound, user) != At(current, inbound, user)
    ensures Has(Delta(last, current), inbound, user)
            ==> At(Delta(last, current), inbound, user) == At(current, inbound, user)
    ensures Has(Delta(last, current), inbound, user) && At(Delta(last, current), inbound, user) == []
            <==> Has(last, inbound, user) && !Has(current, inbound, user)
  {
    DeltaIsAt(last, current, inbound);
    WellFormedAt(last, inbound);
    WellFormedAt(current, inbound);
    DeltaAt(RowOf(last, inbound), RowOf(current, inbound), RowOf(Delta(last, current), inbound), user);
  }

  lemma WellFormedAt(m: Report, i: string)
    requires WellFormed(m)
    ensures WellFormedRow(RowOf(m, i))
  {}

  lemma DeltaAt(last: Row, current: Row, d: Row, user: string)
    requires WellFormedRow(last) && WellFormedRow(current) && IsDelta(last, current, d)
    ensures user in d <==> Get(last, user) != Get(current, user)
    ensures user in d ==> d[user] == Get(current, user)
    ensures user in d && d[user] == [] <==> user in last && user !in current
  {}

  // The changed users of an inbound, without the tombstones.
  function ChangedRow(last: Row, current: Row): Row {
    map u | u in current && Get(last, u) != current[u] :: current[u]
  }

  // Both rows told about one inbound.
  predicate SameRow(a: Report, b: Report, i: string) { RowOf(a, i) == RowOf(b, i) }

  predicate ChangedAt(last: Report, current: Report, out: Report, i: string) {
    RowOf(out, i) == ChangedRow(RowOf(last, i), RowOf(current, i))
  }

  predicate DeltaRowAt(last: Report, current: Report, out: Report, i: string) {
    RowOf(out, i) == DeltaRow(RowOf(last, i), RowOf(current, i))
  }

  // Reports built row by row are the ones the functions above define.
  lemma DeltaByRows(last: Report, current: Report, d: Report)
    requires forall i :: i in d ==> d[i] != map[]
    requires forall i :: i in last ==> DeltaRowAt(last, current, d, i)
    requires forall i :: i !in last ==> ChangedAt(last, current, d, i)
    ensures d == Delta(last, current)
  {
    forall i
      ensures SameAt(Delta(last, current), d, i)
    {
      if i in last {
        assert DeltaRowAt(last, current, d, i);
      } else {
        assert ChangedAt(last, current, d, i);
        NewUsersOnly(RowOf(current, i));
      }
    }
    SameRows(d, Delta(last, current));
  }

  lemma NewUsersOnly(current: Row)
    ensures ChangedRow(map[], current) == DeltaRow(map[], current)
  {}

  lemma CommittedByRows(last: Report, payload: Report, r: Report)
    requires IsCommitted(last, payload, r)
    ensures r == Committed(last, payload)
  {
    forall i
      ensures SameAt(Committed(last, payload), r, i)
    {
      CommittedIsAt(last, payload, i);
    }
    SameRows(r, Committed(last, payload));
  }
}
