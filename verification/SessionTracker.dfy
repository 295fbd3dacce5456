/**
 The session tracker itself: the maps it updates in place under its lock, the
 release functions it hands out and the reports it builds in loops.
 */
module SessionTracker {
  import opened Text
  import opened SourceClassifier
  import opened RefCounts
  import opened Sorting
  import opened Alive
  import SourceTag

  // One reference more, making the inner maps it needs.
  method AddReference(refs: Refs, inbound: string, user: string, key: string) returns (r: Refs)
    ensures r == Increment(refs, inbound, user, key)
  {
    var users := if inbound in refs then refs[inbound] else map[];
    var peers := if user in users then users[user] else map[];
    peers := peers[key := (if key in peers then peers[key] else 0) + 1];
    users := users[user := peers];
    r := refs[inbound := users];
  }

  // One reference less, deleting the entry and the maps that this empties.
  method DropReference(refs: Refs, inbound: string, user: string, key: string) returns (r: Refs)
    ensures r == Decrement(refs, inbound, user, key)
  {
    if inbound !in refs {
      return refs;
    }
    var users := refs[inbound];
    if user in users {
      var peers := users[user];
      peers := peers[key := (if key in peers then peers[key] else 0) - 1];
      if peers[key] <= 0 {
        peers := peers - {key};
      }
      assert peers == DropKey(users[user], key);
      users := if peers == map[] then users - {user} else users[user := peers];
    }
    assert users == DropUser(refs[inbound], user, key);
    r := if users == map[] then refs - {inbound} else refs[inbound := users];
  }

  // The sorted keys of one user's references.
  method ListPeers(peers: map<string, int>) returns (ips: seq<string>)
    ensures IsListing(ips, peers)
  {
    ips := [];
    var todo := peers.Keys;
    while todo != {}
      invariant todo <= peers.Keys && multiset(ips) == multiset(peers.Keys - todo)
    {
      var ip :| ip in todo;
      ips := ips + [ip];
      assert peers.Keys - (todo - {ip}) == (peers.Keys - todo) + {ip};
      todo := todo - {ip};
    }
    assert peers.Keys - todo == peers.Keys;
    SortGivesListing(ips, peers.Keys);
    ips := Sort(ips);
  }

  method ListUsers(users: map<string, map<string, int>>) returns (row: Row)
    ensures row == SnapshotRow(users)
  {
    row := map[];
    var todo := users.Keys;
    while todo != {}
      invariant todo <= users.Keys && row.Keys == users.Keys - todo
      invariant forall u :: u in row ==> IsListing(row[u], users[u])
    {
      var user :| user in todo;
      var ips := ListPeers(users[user]);
      row := row[user := ips];
      todo := todo - {user};
    }
    ListedRow(users, row);
  }

  // Users of one inbound whose addresses differ from the last report.
  method ReportChanged(last: Row, users: Row) returns (row: Row)
    ensures row == ChangedRow(last, users)
  {
    row := map[];
    var todo := users.Keys;
    while todo != {}
      invariant todo <= users.Keys
      invariant forall u :: u in row <==> u in users && u !in todo && Get(last, u) != users[u]
      invariant forall u :: u in row ==> row[u] == users[u]
    {
      var user :| user in todo;
      if Get(last, user) != users[user] {
        row := row[user := users[user]];
      }
      todo := todo - {user};
    }
  }

  // Tombstones for the users of one inbound that are gone.
  method ReportVanished(last: Row, users: Row, changed: Row) returns (row: Row)
    requires changed == ChangedRow(last, users)
    ensures row == DeltaRow(last, users)
  {
    row := changed;
    var todo := last.Keys;
    while todo != {}
      invariant todo <= last.Keys
      invariant forall u :: u in row <==> u in changed || (u in last && u !in todo && u !in users)
      invariant forall u :: u in row ==> row[u] == Get(users, u)
    {
      var user :| user in todo;
      if user !in users {
        row := row[user := []];
      }
      todo := todo - {user};
    }
    DeltaRowIs(last, users);
    assert forall u :: u in row <==> u in DeltaRow(last, users);
  }

  // One inbound's row after a commit of `users`.
  method CommitUsers(last: Row, users: Row) returns (row: Row)
    ensures row == PatchRow(last, users)
  {
    if users == map[] {
      return map[];
    }
    row := last;
    var todo := users.Keys;
    while todo != {}
      invariant todo <= users.Keys
      invariant forall u :: u in row <==> if u in users && u !in todo then users[u] != [] else u in last
      invariant forall u :: u in row ==> row[u] == if u in users && u !in todo then Sort(users[u]) else last[u]
    {
      var user :| user in todo;
      if users[user] == [] {
        row := row - {user};
      } else {
        row := row[user := Sort(users[user])];
      }
      todo := todo - {user};
    }
    CommitRowIs(last, users);
    assert forall u :: u in row <==> u in CommitRow(last, users);
  }

  // The first pass of AliveDelta: everything that is there and changed.
  method ReportAllChanged(last: Report, current: Report) returns (out: Report)
    ensures forall i :: i in out ==> out[i] != map[]
    ensures forall i :: ChangedAt(last, current, out, i)
  {
    out := map[];
    var todo := current.Keys;
    while todo != {}
      invariant todo <= current.Keys
      invariant forall i :: i in out ==> out[i] != map[]
      invariant forall i :: i in current && i !in todo ==> ChangedAt(last, current, out, i)
      invariant forall i :: i !in current || i in todo ==> i !in out
    {
      var inbound :| inbound in todo;
      var row := ReportChanged(RowOf(last, inbound), current[inbound]);
      if row != map[] {
        out := out[inbound := row];
      }
      todo := todo - {inbound};
    }
  }

  // One inbound's tombstones.
  method ReportVanishedAt(last: Report, current: Report, out: Report, inbound: string) returns (r: Report)
    requires inbound in last && ChangedAt(last, current, out, inbound)
    requires forall i :: i in out ==> out[i] != map[]
    ensures DeltaRowAt(last, current, r, inbound) && forall i :: i != inbound ==> SameRow(r, out, i)
    ensures forall i :: i in r ==> r[i] != map[]
  {
    var row := ReportVanished(last[inbound], RowOf(current, inbound), RowOf(out, inbound));
    r := if row != map[] then out[inbound := row] else out;
  }

  // The second pass of AliveDelta: tombstones for everything that is gone.
  method ReportAllVanished(last: Report, current: Report, changed: Report) returns (out: Report)
    requires forall i :: i in changed ==> changed[i] != map[]
    requires forall i :: ChangedAt(last, current, changed, i)
    ensures forall i :: i in out ==> out[i] != map[]
    ensures forall i :: i in last ==> DeltaRowAt(last, current, out, i)
    ensures forall i :: i !in last ==> ChangedAt(last, current, out, i)
  {
    out := changed;
    var todo := last.Keys;
    while todo != {}
      invariant todo <= last.Keys
      invariant forall i :: i in out ==> out[i] != map[]
      invariant forall i :: i in last && i !in todo ==> DeltaRowAt(last, current, out, i)
      invariant forall i :: i !in last || i in todo ==> ChangedAt(last, current, out, i)
    {
      var inbound :| inbound in todo;
      var next := ReportVanishedAt(last, current, out, inbound);
      SameRowsSameFacts(last, current, out, next, inbound);
      out, todo := next, todo - {inbound};
    }
  }

  lemma SameRowsSameFacts(last: Report, current: Report, out: Report, next: Report, inbound: string)
    requires forall i :: i != inbound ==> SameRow(next, out, i)
    ensures forall i :: i != inbound ==> (DeltaRowAt(last, current, next, i) <==> DeltaRowAt(last, current, out, i))
    ensures forall i :: i != inbound ==> (ChangedAt(last, current, next, i) <==> ChangedAt(last, current, out, i))
  {
    forall i | i != inbound
      ensures DeltaRowAt(last, current, next, i) <==> DeltaRowAt(last, current, out, i)
      ensures ChangedAt(last, current, next, i) <==> ChangedAt(last, current, out, i)
    {
      assert SameRow(next, out, i);
    }
  }

  // Patches one inbound of what the panel was told last.
  method CommitAt(last: Report, payload: Report, r: Report, inbound: string) returns (r': Report)
    requires inbound in payload && SameAt(last, r, inbound)
    ensures CommittedAt(last, payload, r', inbound) && forall i :: i != inbound ==> SameAt(r, r', i)
  {
    var row := CommitUsers(RowOf(r, inbound), payload[inbound]);
    r' := if row == map[] then r - {inbound} else r[inbound := row];
  }

  // Patches what the panel was told last with what it is told now.
  method CommitAll(last: Report, payload: Report) returns (r: Report)
    ensures r == Committed(last, payload)
  {
    r := last;
    var todo := payload.Keys;
    while todo != {}
      invariant todo <= payload.Keys
      invariant forall i :: i in payload && i !in todo ==> CommittedAt(last, payload, r, i)
      invariant forall i :: i in todo || i !in payload ==> SameAt(last, r, i)
    {
      var inbound :| inbound in todo;
      var next := CommitAt(last, payload, r, inbound);
      SameAtSameFacts(last, payload, r, next, inbound);
      r, todo := next, todo - {inbound};
    }
    CommittedByRows(last, payload, r);
  }

  lemma SameAtSameFacts(last: Report, payload: Report, r: Report, next: Report, inbound: string)
    requires forall i :: i != inbound ==> SameAt(r, next, i)
    ensures forall i :: i != inbound ==> (CommittedAt(last, payload, next, i) <==> CommittedAt(last, payload, r, i))
    ensures forall i :: i != inbound ==> (SameAt(last, next, i) <==> SameAt(last, r, i))
  {
    forall i | i != inbound
      ensures CommittedAt(last, payload, next, i) <==> CommittedAt(last, payload, r, i)
      ensures SameAt(last, next, i) <==> SameAt(last, r, i)
    {
      assert SameAt(r, next, i);
    }
  }

  class Tracker {
    var deviceRefs: Refs
    var sourceRefs: Refs
    var lastAlive: Report
    const net: Net
    const classifier: Option<seq<Rule>>

    constructor (net: Net, classifier: Option<seq<Rule>>)
      ensures this.net == net && this.classifier == classifier
      ensures deviceRefs == map[] && sourceRefs == map[] && lastAlive == map[]
    {
      this.net, this.classifier := net, classifier;
      deviceRefs, sourceRefs, lastAlive := map[], map[], map[];
    }

    // The state as the runs of RefCounts know it, given the sessions so far.
    ghost function World(log: seq<Session>): World
      reads this
    {
      RefCounts.World(deviceRefs, sourceRefs, log)
    }

    method Open(inbound: string, user: string, source: string) returns (release: Releaser)
      modifies this`deviceRefs, this`sourceRefs
      ensures fresh(release) && release.tracker == this
      ensures release.fired <==> user == ""
      ensures user != "" ==> release.session == Opening(net, classifier, inbound, user, source)
      ensures forall log :: World(log + if user == "" then [] else [release.session])
                == Step(net, classifier, old(World(log)), RefCounts.Open(inbound, user, source))
    {
      if user == "" {
        release := new Releaser.Nothing(this);
        return;
      }
      var tag := SourceTag.NormalizeInbound(inbound);
      var ip := NormalizePeerIP(net, source);
      var bucket := Classify(net, classifier, source);
      if ip != "" {
        deviceRefs := AddReference(deviceRefs, tag, user, ip);
      }
      if bucket != "" {
        sourceRefs := AddReference(sourceRefs, tag, user, bucket);
      }
      release := new Releaser(this, RefCounts.Session(tag, user, ip, bucket, true));
    }

    method DevicesSnapshot() returns (out: Report)
      ensures out == Snapshot(deviceRefs)
    {
      out := map[];
      var todo := deviceRefs.Keys;
      while todo != {}
        invariant todo <= deviceRefs.Keys && out.Keys == deviceRefs.Keys - todo
        invariant forall i :: i in out ==> out[i] == SnapshotRow(deviceRefs[i])
      {
        var inbound :| inbound in todo;
        var row := ListUsers(deviceRefs[inbound]);
        out := out[inbound := row];
        todo := todo - {inbound};
      }
    }

    method AliveDelta() returns (out: Report)
      ensures out == Delta(lastAlive, Snapshot(deviceRefs))
    {
      var current := DevicesSnapshot();
      out := ReportAllChanged(lastAlive, current);
      out := ReportAllVanished(lastAlive, current, out);
      DeltaByRows(lastAlive, current, out);
    }

    method CommitAlive(payload: Report)
      modifies this`lastAlive
      ensures lastAlive == Committed(old(lastAlive), payload)
    {
      lastAlive := CommitAll(lastAlive, payload);
    }

    // One reference less in each index, deleting the maps this empties.
    method Close(s: Session)
      modifies this`deviceRefs, this`sourceRefs
      ensures deviceRefs == if s.user == "" then old(deviceRefs) else CountOut(old(deviceRefs), s, s.ip)
      ensures sourceRefs == if s.user == "" then old(sourceRefs) else CountOut(old(sourceRefs), s, s.bucket)
    {
      if s.user == "" {
        return;
      }
      if s.ip != "" {
        deviceRefs := DropReference(deviceRefs, s.inbound, s.user, s.ip);
      }
      if s.bucket != "" {
        sourceRefs := DropReference(sourceRefs, s.inbound, s.user, s.bucket);
      }
    }
  }

  // The function Open returns: it closes its session the first time it is
  // called and does nothing afterwards.
  class Releaser {
    const tracker: Tracker
    const session: Session
    var fired: bool

    constructor (tracker: Tracker, session: Session)
      ensures this.tracker == tracker && this.session == session && !fired
    {
      this.tracker, this.session, fired := tracker, session, false;
    }

    constructor Nothing(tracker: Tracker)
      ensures this.tracker == tracker && fired
    {
      this.tracker, this.session, fired := tracker, RefCounts.Session("", "", "", "", false), true;
    }

    method Release()
      requires !fired ==> session.user != "" && session.live
      modifies this`fired, tracker`deviceRefs, tracker`sourceRefs
      ensures fired
      ensures forall log: seq<Session>, h: nat :: h < |log| && log[h] == session.(live := !old(fired)) ==>
                tracker.World(log[h := session.(live := false)])
                == Step(tracker.net, tracker.classifier, old(tracker.World(log)), RefCounts.Release(h))
    {
      if !fired {
        fired := true;
        tracker.Close(session);
      }
    }
  }
}
