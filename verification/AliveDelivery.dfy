/**
 The way of a presence report to the panels: the source map gives every tag's users
 to a panel under the base tag, overwriting what was there, and the client of a
 panel collects the addresses of each user (panelapi/source_map.go,
 panelapi/client.go).
 */
module AliveDelivery {
  import opened Text
  import opened Alive
  import opened Delivery
  import opened Sorting

  type RoutedAlive = map<nat, Report>

  function AliveRow(out: RoutedAlive, panel: nat, base: string): Row {
    if panel in out then RowOf(out[panel], base) else map[]
  }

  // One tag's users are copied over what its panel and base tag have.
  function PutTag(c: Chain, out: RoutedAlive, tag: string, users: Row): RoutedAlive {
    var (panel, base) := c.route(tag);
    if panel.None? then out
    else
      var rows := if panel.value in out then out[panel.value] else map[];
      out[panel.value := rows[base := RowOf(rows, base) + users]]
  }

  // What the loop makes of the tags, taken in some order.
  function RouteInOrder(c: Chain, alive: Report, order: seq<string>): RoutedAlive {
    if order == [] then map[]
    else
      var n := |order| - 1;
      PutTag(c, RouteInOrder(c, alive, order[..n]), order[n], RowOf(alive, order[n]))
  }

  // Every tag once.
  ghost predicate IsOrderOf(order: seq<string>, tags: set<string>) { multiset(order) == multiset(tags) }

  ghost predicate IsOrder(order: seq<string>, alive: Report) { IsOrderOf(order, alive.Keys) }

  lemma OrderGrows(order: seq<string>, tags: set<string>, todo: set<string>, tag: string)
    requires tag in todo && todo <= tags && IsOrderOf(order, tags - todo)
    ensures IsOrderOf(order + [tag], tags - (todo - {tag}))
  {
    assert tags - (todo - {tag}) == (tags - todo) + {tag};
  }

  method PutUsers(row: Row, users: Row) returns (r: Row)
    ensures r == row + users
  {
    r := row;
    var todo := users.Keys;
    while todo != {}
      invariant todo <= users.Keys
      invariant forall u :: u in r <==> u in row || (u in users && u !in todo)
      invariant forall u :: u in r ==> r[u] == if u in users && u !in todo then users[u] else row[u]
    {
      var user :| user in todo;
      r := r[user := users[user]];
      todo := todo - {user};
    }
    assert r.Keys == (row + users).Keys;
  }

  method RouteTagAlive(c: Chain, out: RoutedAlive, tag: string, users: Row) returns (out': RoutedAlive)
    ensures out' == PutTag(c, out, tag, users)
  {
    var (panel, base) := c.route(tag);
    if panel.None? {
      return out;
    }
    var rows := if panel.value in out then out[panel.value] else map[];
    var row := PutUsers(RowOf(rows, base), users);
    out' := out[panel.value := rows[base := row]];
  }

  // The loop visits the tags in an order of its own.
  method RouteAlive(c: Chain, alive: Report) returns (out: RoutedAlive)
    ensures exists order :: IsOrder(order, alive) && out == RouteInOrder(c, alive, order)
  {
    out := map[];
    ghost var order := [];
    var todo := alive.Keys;
    while todo != {}
      invariant todo <= alive.Keys && IsOrderOf(order, alive.Keys - todo)
      invariant out == RouteInOrder(c, alive, order)
    {
      var tag :| tag in todo;
      out := RouteTagAlive(c, out, tag, alive[tag]);
      assert (order + [tag])[..|order|] == order;
      OrderGrows(order, alive.Keys, todo, tag);
      todo, order := todo - {tag}, order + [tag];
    }
    assert alive.Keys - todo == alive.Keys;
  }

  // A tag that gives a user these addresses under a panel's base tag.
  predicate Gives(c: Chain, alive: Report, tag: string, panel: nat, base: string, user: string, peers: seq<string>) {
    tag in alive && LeadsTo(c, tag, panel, base) && user in alive[tag] && alive[tag][user] == peers
  }

  lemma PutTagAt(c: Chain, out: RoutedAlive, tag: string, users: Row, p: nat, b: string)
    ensures AliveRow(PutTag(c, out, tag, users), p, b)
            == if LeadsTo(c, tag, p, b) then AliveRow(out, p, b) + users else AliveRow(out, p, b)
  {}

  ghost predicate Given(c: Chain, alive: Report, order: seq<string>, p: nat, b: string, u: string, peers: seq<string>) {
    exists t :: t in order && Gives(c, alive, t, p, b, u, peers)
  }

  // In every order a user is there exactly when some tag gives it addresses, and has
  // the addresses that one of these tags gives.
  lemma {:induction false} RoutedUser(c: Chain, alive: Report, order: seq<string>, p: nat, b: string, u: string)
    requires forall t :: t in order ==> t in alive
    ensures var row := AliveRow(RouteInOrder(c, alive, order), p, b);
            && (u in row ==> Given(c, alive, order, p, b, u, row[u]))
            && (forall peers :: Given(c, alive, order, p, b, u, peers) ==> u in row)
  {
    if order != [] {
      var n := |order| - 1;
      RoutedUser(c, alive, order[..n], p, b, u);
      PutTagAt(c, RouteInOrder(c, alive, order[..n]), order[n], alive[order[n]], p, b);
      assert order == order[..n] + [order[n]];
      GivenStep(c, alive, order[..n], order[n], p, b, u);
    }
  }

  lemma GivenStep(c: Chain, alive: Report, order: seq<string>, tag: string, p: nat, b: string, u: string)
    ensures forall peers :: Given(c, alive, order + [tag], p, b, u, peers)
              <==> Given(c, alive, order, p, b, u, peers) || Gives(c, alive, tag, p, b, u, peers)
  {
    assert tag in order + [tag];
  }

  // ------------------------------------------------------------ what may be lost

  // Everything a tag gives arrives.
  ghost predicate AllArrives(c: Chain, alive: Report, out: RoutedAlive) {
    forall t, p, b, u, peers :: Gives(c, alive, t, p, b, u, peers) ==>
      u in AliveRow(out, p, b) && AliveRow(out, p, b)[u] == peers
  }

  // Tags with one panel and base tag give a user the same addresses.
  ghost predicate NoClash(c: Chain, alive: Report) {
    forall t, t', p, b, u, x, y :: Gives(c, alive, t, p, b, u, x) && Gives(c, alive, t', p, b, u, y) ==> x == y
  }

  // Whichever tag gives a user addresses, they are what stays when it comes last.
  lemma AnyTagCanStay(c: Chain, alive: Report, tag: string, p: nat, b: string, u: string, peers: seq<string>)
    returns (order: seq<string>)
    requires Gives(c, alive, tag, p, b, u, peers)
    ensures IsOrder(order, alive) && order != [] && order[|order| - 1] == tag
    ensures var row := AliveRow(RouteInOrder(c, alive, order), p, b); u in row && row[u] == peers
  {
    var others := Enumeration(alive.Keys - {tag});
    order := others + [tag];
    assert alive.Keys == (alive.Keys - {tag}) + {tag};
    assert order[..|order| - 1] == others;
    PutTagAt(c, RouteInOrder(c, alive, others), tag, alive[tag], p, b);
  }

  // Every order of the tags brings everything to the panels exactly when no two tags
  // clash: routing overwrites, it does not merge.
  lemma AllArrivesIff(c: Chain, alive: Report)
    ensures (forall order :: IsOrder(order, alive) ==> AllArrives(c, alive, RouteInOrder(c, alive, order)))
            <==> NoClash(c, alive)
  {
    if NoClash(c, alive) {
      forall order | IsOrder(order, alive)
        ensures AllArrives(c, alive, RouteInOrder(c, alive, order))
      {
        NoClashArrives(c, alive, order);
      }
    }
    if forall order :: IsOrder(order, alive) ==> AllArrives(c, alive, RouteInOrder(c, alive, order)) {
      forall t, t', p: nat, b, u, x, y | Gives(c, alive, t, p, b, u, x) && Gives(c, alive, t', p, b, u, y)
        ensures x == y
      {
        var order := AnyTagCanStay(c, alive, t', p, b, u, y);
        assert AllArrives(c, alive, RouteInOrder(c, alive, order));
      }
    }
  }

  lemma OrderHas(order: seq<string>, alive: Report, t: string)
    requires IsOrder(order, alive)
    ensures t in order <==> t in alive
  {
    assert t in multiset(order) <==> t in multiset(alive.Keys);
  }

  lemma NoClashArrives(c: Chain, alive: Report, order: seq<string>)
    requires NoClash(c, alive) && IsOrder(order, alive)
    ensures AllArrives(c, alive, RouteInOrder(c, alive, order))
  {
    forall t
      ensures t in order <==> t in alive
    {
      OrderHas(order, alive, t);
    }
    forall t, p: nat, b, u, peers | Gives(c, alive, t, p, b, u, peers)
      ensures var row := AliveRow(RouteInOrder(c, alive, order), p, b); u in row && row[u] == peers
    {
      assert Given(c, alive, order, p, b, u, peers);
      RoutedUser(c, alive, order, p, b, u);
    }
  }

  // A tombstone of one source hides the addresses that another source has for the
  // same user on the same inbound whenever it comes last, and it can.
  lemma TombstoneHides(c: Chain, alive: Report, gone: string, live: string, p: nat, b: string, u: string,
                       peers: seq<string>) returns (order: seq<string>)
    requires Gives(c, alive, gone, p, b, u, []) && Gives(c, alive, live, p, b, u, peers) && peers != []
    ensures IsOrder(order, alive)
    ensures var row := AliveRow(RouteInOrder(c, alive, order), p, b); u in row && row[u] == []
    ensures !NoClash(c, alive)
  {
    order := AnyTagCanStay(c, alive, gone, p, b, u, []);
  }

  // ------------------------------------------------------------------ the client

  ghost predicate Names(alive: Report, tags: set<string>, user: string) {
    exists t :: t in tags && t in alive && user in alive[t]
  }

  ghost predicate Lists(alive: Report, tags: set<string>, user: string, ip: string) {
    exists t :: t in tags && t in alive && user in alive[t] && ip in alive[t][user]
  }

  type Addresses = map<string, set<string>>

  // The numeric users of some tags, each with all its addresses there.
  ghost predicate Collected(alive: Report, tags: set<string>, flat: Addresses) {
    && (forall u :: u in flat <==> IsNumericUser(u) && Names(alive, tags, u))
    && (forall u, ip :: u in flat ==> (ip in flat[u] <==> ip != "" && Lists(alive, tags, u, ip)))
  }

  method AddPeers(ips: set<string>, peers: seq<string>) returns (r: set<string>)
    ensures forall ip :: ip in r <==> ip in ips || (ip != "" && ip in peers)
  {
    r := ips;
    for i := 0 to |peers|
      invariant forall ip :: ip in r <==> ip in ips || (ip != "" && ip in peers[..i])
    {
      assert peers[..i + 1] == peers[..i] + [peers[i]];
      if peers[i] != "" {
        r := r + {peers[i]};
      }
    }
    assert peers[..|peers|] == peers;
  }

  function IpsOf(flat: Addresses, user: string): set<string> { if user in flat then flat[user] else {} }

  // Adds the users of one tag.
  method AddTag(flat: Addresses, users: Row) returns (r: Addresses)
    ensures forall u :: u in r <==> u in flat || (u in users && IsNumericUser(u))
    ensures forall u, ip :: u in r ==>
              (ip in r[u] <==>
               ip in IpsOf(flat, u) || (u in users && IsNumericUser(u) && ip != "" && ip in users[u]))
  {
    r := flat;
    var todo := users.Keys;
    while todo != {}
      invariant todo <= users.Keys
      invariant forall u :: u in r <==> u in flat || (u in users && u !in todo && IsNumericUser(u))
      invariant forall u, ip :: u in r ==>
                  (ip in r[u] <==>
                   ip in IpsOf(flat, u)
                   || (u in users && u !in todo && IsNumericUser(u) && ip != "" && ip in users[u]))
    {
      var user :| user in todo;
      if IsNumericUser(user) {
        var ips := AddPeers(IpsOf(r, user), users[user]);
        r := r[user := ips];
      }
      todo := todo - {user};
    }
  }

  // What a client reports: every numeric user of the tags it matches, with all the
  // addresses these tags list for it; no blank ones.
  method CollectPeers(matches: string -> bool, alive: Report) returns (flat: Addresses)
    ensures Collected(alive, Matching(alive.Keys, matches), flat)
  {
    flat := map[];
    var todo := alive.Keys;
    ghost var done := {};
    while todo != {}
      invariant todo !! done && todo + done == alive.Keys
      invariant Collected(alive, Matching(done, matches), flat)
    {
      var tag :| tag in todo;
      if matches(tag) {
        var next := AddTag(flat, alive[tag]);
        CollectStep(alive, Matching(done, matches), tag, flat, next);
        assert Matching(done + {tag}, matches) == Matching(done, matches) + {tag};
        flat := next;
      } else {
        assert Matching(done + {tag}, matches) == Matching(done, matches);
      }
      todo, done := todo - {tag}, done + {tag};
    }
  }

  ghost function Matching(tags: set<string>, matches: string -> bool): set<string> {
    set t | t in tags && matches(t)
  }

  lemma CollectStep(alive: Report, tags: set<string>, tag: string, flat: Addresses, next: Addresses)
    requires tag in alive && Collected(alive, tags, flat)
    requires forall u :: u in next <==> u in flat || (u in alive[tag] && IsNumericUser(u))
    requires forall u, ip :: u in next ==>
               (ip in next[u] <==>
                ip in IpsOf(flat, u) || (u in alive[tag] && IsNumericUser(u) && ip != "" && ip in alive[tag][u]))
    ensures Collected(alive, tags + {tag}, next)
  {
    forall u
      ensures Names(alive, tags + {tag}, u) <==> Names(alive, tags, u) || u in alive[tag]
    {
      if u in alive[tag] {
        assert tag in tags + {tag};
      }
    }
    forall u, ip
      ensures Lists(alive, tags + {tag}, u, ip)
              <==> Lists(alive, tags, u, ip) || (u in alive[tag] && ip in alive[tag][u])
    {
      if u in alive[tag] && ip in alive[tag][u] {
        assert tag in tags + {tag};
      }
    }
    forall u, ip | u in next
      ensures ip in next[u] <==> ip != "" && Lists(alive, tags + {tag}, u, ip)
    {
      NotNamedNotListed(alive, tags, u, ip);
    }
  }

  lemma NotNamedNotListed(alive: Report, tags: set<string>, u: string, ip: string)
    ensures Lists(alive, tags, u, ip) ==> Names(alive, tags, u)
  {}

  // ------------------------------------------------------- requests for a difference

  // A tag that the client matches has the address for the user.
  ghost predicate IsLive(current: Report, matches: string -> bool, user: string, ip: string) {
    exists t :: matches(t) && ip in At(current, t, user)
  }

  predicate Changed(last: Report, current: Report, tag: string, user: string) {
    At(last, tag, user) != At(current, tag, user)
  }

  ghost predicate OnChangedTag(last: Report, current: Report, matches: string -> bool, user: string, ip: string) {
    exists t :: matches(t) && Changed(last, current, t, user) && ip in At(current, t, user)
  }

  // Every address that a matched tag still has unchanged is also on a changed one.
  ghost predicate NothingUnchanged(last: Report, current: Report, matches: string -> bool, user: string) {
    forall t, ip :: matches(t) && !Changed(last, current, t, user) && ip in At(current, t, user) && ip != "" ==>
      OnChangedTag(last, current, matches, user, ip)
  }

  // What a request lists for a user is what its changed tags have.
  lemma RequestLists(last: Report, current: Report, matches: string -> bool, flat: Addresses, user: string, ip: string)
    requires WellFormed(last) && WellFormed(current)
    requires Collected(Delta(last, current), Matching(Delta(last, current).Keys, matches), flat) && user in flat
    ensures ip in flat[user] <==> ip != "" && OnChangedTag(last, current, matches, user, ip)
  {
    var d := Delta(last, current);
    if t :| t in Matching(d.Keys, matches) && t in d && user in d[t] && ip in d[t][user] {
      DeltaIsExact(last, current, t, user);
      assert Changed(last, current, t, user);
    }
    if t :| matches(t) && Changed(last, current, t, user) && ip in At(current, t, user) {
      DeltaIsExact(last, current, t, user);
      assert t in Matching(d.Keys, matches) && user in d[t] && ip in d[t][user];
    }
  }

  lemma ChangedIsNamed(last: Report, current: Report, matches: string -> bool, flat: Addresses, tag: string,
                       user: string)
    requires WellFormed(last) && WellFormed(current)
    requires Collected(Delta(last, current), Matching(Delta(last, current).Keys, matches), flat)
    requires matches(tag) && Changed(last, current, tag, user) && IsNumericUser(user)
    ensures user in flat
  {
    DeltaIsExact(last, current, tag, user);
    assert tag in Matching(Delta(last, current).Keys, matches);
  }

  // A request for a difference never lists a dead address. It lists all live addresses
  // of a user on the tags that the client matches exactly when no matched tag that is
  // unchanged has an address that no changed one has.
  lemma RequestIsCompleteIff(last: Report, current: Report, matches: string -> bool, flat: Addresses, user: string)
    requires WellFormed(last) && WellFormed(current)
    requires Collected(Delta(last, current), Matching(Delta(last, current).Keys, matches), flat) && user in flat
    ensures forall ip :: ip in flat[user] ==> IsLive(current, matches, user, ip)
    ensures (forall ip :: ip != "" && IsLive(current, matches, user, ip) ==> ip in flat[user])
            <==> NothingUnchanged(last, current, matches, user)
  {
    forall ip
      ensures ip in flat[user] <==> ip != "" && OnChangedTag(last, current, matches, user, ip)
    {
      RequestLists(last, current, matches, flat, user, ip);
    }
    if forall ip :: ip != "" && IsLive(current, matches, user, ip) ==> ip in flat[user] {
      forall t, ip | matches(t) && !Changed(last, current, t, user) && ip in At(current, t, user) && ip != ""
        ensures OnChangedTag(last, current, matches, user, ip)
      {
        assert IsLive(current, matches, user, ip);
      }
    }
    if NothingUnchanged(last, current, matches, user) {
      forall ip | ip != "" && IsLive(current, matches, user, ip)
        ensures ip in flat[user]
      {
        var t :| matches(t) && ip in At(current, t, user);
        assert Changed(last, current, t, user) ==> OnChangedTag(last, current, matches, user, ip);
      }
    }
  }

  // So an address that only an unchanged tag has is left out as soon as another tag the
  // client matches has changed.
  lemma UnchangedTagIsLeftOut(last: Report, current: Report, matches: string -> bool, flat: Addresses, tag: string,
                              user: string, ip: string)
    requires WellFormed(last) && WellFormed(current)
    requires Collected(Delta(last, current), Matching(Delta(last, current).Keys, matches), flat)
    requires matches(tag) && Changed(last, current, tag, user) && IsNumericUser(user)
    requires IsLive(current, matches, user, ip) && !OnChangedTag(last, current, matches, user, ip)
    ensures user in flat && ip !in flat[user]
  {
    ChangedIsNamed(last, current, matches, flat, tag, user);
    RequestLists(last, current, matches, flat, user, ip);
  }

  const BEFORE: Report := map["a-in" := map["5" := ["::1"]]]
  const AFTER: Report := map["a-in" := map["5" := ["::1"]], "b-in" := map["5" := ["::2"]]]

  lemma OneRow(ip: string)
    ensures map["5" := [ip]] != map[] && WellFormedRow(map["5" := [ip]])
  {
    assert "5" in map["5" := [ip]];
    assert Sort([ip]) == [ip];
  }

  // For example, when user 5 comes to a second tag a client that matches both reports
  // only the address there.
  lemma SecondTagHidesFirst(matches: string -> bool)
    requires matches("a-in") && matches("b-in")
    ensures WellFormed(BEFORE) && WellFormed(AFTER)
    ensures Changed(BEFORE, AFTER, "b-in", "5") && IsNumericUser("5")
    ensures IsLive(AFTER, matches, "5", "::1") && !OnChangedTag(BEFORE, AFTER, matches, "5", "::1")
  {
    OneRow("::1");
    OneRow("::2");
    assert At(AFTER, "b-in", "5") == ["::2"] && At(AFTER, "a-in", "5") == ["::1"];
    assert forall t :: Changed(BEFORE, AFTER, t, "5") ==> t == "b-in";
  }
}
